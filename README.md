# Departure control prototype: seatmap builder, check-in, boarding and flight tabs

This project models the stateful core of a departure-control web prototype and
proves properties of it in Dafny.

- **Seatmap builder** (`CreateSeatmap.jsx`). An aircraft's seatmap is a list of
  cabin records plus one *cabin map* per cabin. A cabin map holds row labels,
  column labels and a grid of cells. Each cell is a seat or blocked, and has
  feature tags and a zone. The model covers:
  - label expansion (`labelRange`);
  - layout resolution (`layoutPattern`, e.g. "3-3" means three seats, an
    aisle, three seats);
  - grid generation (`buildCabinMap`) and loading a saved seatmap
    (`ensureSeatmap`);
  - the seat counts per class and in total;
  - every editing handler: palette tools, removing or relabelling rows and
    columns, zones, aisle toggling, and adding, deleting, editing and
    regenerating cabins.

  The modules are `Labels`, `Layout`, `Grid`, `SeatCounts` and `Seatmaps`. The
  builder's state is the class `Seatmaps.SeatmapEditor`.
- **Check-in list** (`CheckInView.jsx`), module `CheckIn`. It covers:
  - `incrementSeat`, with a leftmost-match reading of its regular expression;
  - PNR-command and free-text search;
  - the selection set and the per-PNR split switches;
  - seat auto-assignment for a booking and grouping of the selection by PNR.

  The state is the class `CheckIn.PassengerList`.
- **Boarding control** (`BoardingView.jsx`), module `Boarding`. It covers the
  status totals, the status and search filter, the selection, and bulk or
  single boarding and holding. The state is the class
  `Boarding.BoardingControl`.
- **Departure flight list** (`FlightList.jsx`), module `Flights`. It covers the
  flight filter, the colour schemes, and the tab bar (class `Flights.TabBar`):
  opening a flight, adding a tab and closing a tab.

Shared pieces are in `common.dfy`:
- `Option`;
- string helpers that mirror `trim`, `toLowerCase`, `includes`, `Number` on
  decimal strings, and UTF-16 code units;
- `Dict`, an ordered dictionary. It stands for a JavaScript object whose keys
  keep their insertion order, and assigning an existing key keeps its place.

Each handler that replaces React state is a method of its class. The method's
`ensures` ties the new state to a pure function of the old one, and lemmas
prove what those functions promise. The forEach loops are methods whose loop
invariants prove them equal to their specification function: filling the cabin
maps, counting seats per class, collecting ids, assigning seats and grouping by
PNR.

## Model

| member | source | states |
|---|---|---|
| Labels.LabelRange | src/components/Administration/CreateSeatmap.jsx:52-53 | A missing start or end bound gives no labels. |
| Labels.LabelRangeNumeric | src/components/Administration/CreateSeatmap.jsx:52-60 | Numeric bounds s..e give e-s+1 decimal labels. Label i reads back as s+i, the labels strictly increase, and a reversed pair gives none. |
| Labels.LabelRangeAlphabetic | src/components/Administration/CreateSeatmap.jsx:61-64 | Other bounds give one single-character label per code unit, from the first bound's upper-cased first character to the last's. A reversed pair gives none. |
| Labels.LabelRangeFirstCharOnly | src/components/Administration/CreateSeatmap.jsx:61-64 | Outside the numeric case only the first character of each bound matters. |
| Layout.LayoutPattern | src/components/Administration/CreateSeatmap.jsx:67-81 | The push loops, the cut and the 'blocked' padding compute exactly Layout.Resolve. |
| Layout.ResolveRoles | src/components/Administration/CreateSeatmap.jsx:67-81 | The pattern always has the requested length. Without a positive group it is all seats. Otherwise it has an aisle exactly after each group but the last, 'blocked' exactly on the padding, and seats elsewhere. |
| Layout.JoinSplit | src/components/Administration/CreateSeatmap.jsx:68-69 | Splitting the layout on '-' loses nothing: joining the pieces gives the string back. |
| Layout.GroupsOfTwo | src/components/Administration/CreateSeatmap.jsx:68-71 | Two non-zero digits joined by '-', such as the default "3-3", read as those two groups. |
| Layout.GroupDigit | src/components/Administration/CreateSeatmap.jsx:70-71 | A single non-zero digit survives the trim, the Number() and the filter as a group of that many seats. |
| Layout.ResolveTwoGroups | src/components/Administration/CreateSeatmap.jsx:67-81 | A two-group layout such as "3-3" gives, over any column count, the first group's seats, one aisle and the second group's seats, cut or padded to that count. |
| Layout.TwoGroupsAisle | src/components/Administration/CreateSeatmap.jsx:74-77 | Pushing two groups of x and y seats puts the only aisle at index x. |
| Layout.PushSeats | src/components/Administration/CreateSeatmap.jsx:75 | The inner loop appends exactly `count` seats to the pattern and changes nothing before them. |
| Layout.PadBlocked | src/components/Administration/CreateSeatmap.jsx:79 | A pattern shorter than `length` keeps its roles and is padded with 'blocked' up to exactly `length` roles. |
| Layout.Fit | src/components/Administration/CreateSeatmap.jsx:78-79 | The result has exactly `length` roles: the pattern's own role where it has one, 'blocked' beyond it. |
| Layout.EmittedRole | src/components/Administration/CreateSeatmap.jsx:74-77 | Inside the pushed pattern a position holds an aisle exactly when it follows a group other than the last, and a seat otherwise. |
| Layout.PaddingRole | src/components/Administration/CreateSeatmap.jsx:74-79 | Every position past the pushed pattern is padding and lies past every aisle. |
| Grid.ToolOf | src/components/Administration/CreateSeatmap.jsx:222-241 | Any tool the palette key selects has that key as its name. |
| Grid.ToolNameRoundTrip | src/components/Administration/CreateSeatmap.jsx:222-241 | Every tool is selected by its own palette key. |
| Grid.BuildCabinMap | src/components/Administration/CreateSeatmap.jsx:83-94 | Rows and columns are the two label ranges and the grid matches them in shape and labels. A cell is blocked exactly under an aisle of the layout ("3-3" if missing), and every cell is fresh: the cabin's name, no tags, no zone. |
| Grid.FreshGrid | src/components/Administration/CreateSeatmap.jsx:87-92 | For any labels and a pattern as long as the columns, the grid is well formed for those labels. Each cell is blocked exactly under an aisle, carries the given cabin name and has no tags and no zone. |
| Grid.BuildDefaultLayout | src/components/Administration/CreateSeatmap.jsx:86 | A missing layout builds the same map as "3-3". |
| Grid.BuildBlockedColumns | src/components/Administration/CreateSeatmap.jsx:83-94 | A generated cell is blocked iff its column directly follows a layout group other than the last. |
| Grid.ToolCell | src/components/Administration/CreateSeatmap.jsx:220-245 | Per tool: 'seat' makes a seat; 'blocked' blocks and drops the tags; a feature makes a seat and adds its tag unless present; 'zone' makes a seat in that zone. Labels and cabin are kept, and tags never repeat. |
| Grid.ToolIdempotent | src/components/Administration/CreateSeatmap.jsx:236 | Applying a tool twice equals applying it once, so a feature never doubles its tag. |
| Grid.ApplyTool | src/components/Administration/CreateSeatmap.jsx:200-246 | Only cell (row, col) changes. An unknown tool or a column outside the row changes nothing. The grid stays in lockstep with its labels. |
| Grid.DropLastRow | src/components/Administration/CreateSeatmap.jsx:248-256 | The last row label and last grid row go, all other rows are kept, and no row label means no change. Lockstep is preserved. |
| Grid.DropLastCol | src/components/Administration/CreateSeatmap.jsx:258-266 | The last column label and the last cell of each row go, and no column label means no change. Lockstep is preserved. |
| Grid.RelabelRow | src/components/Administration/CreateSeatmap.jsx:310-319 | Label idx and the row field of that row's cells become the new value. Nothing else changes, and lockstep is preserved. |
| Grid.RelabelCol | src/components/Administration/CreateSeatmap.jsx:321-330 | Label idx and the col field of that column's cells become the new value. Nothing else changes, and lockstep is preserved. |
| Grid.ZoneRows | src/components/Administration/CreateSeatmap.jsx:368-376 | Exactly the cells of rows lo..hi take the zone, seat or blocked alike. |
| Grid.AssignRowZone | src/components/Administration/CreateSeatmap.jsx:332-345 | Every cell of that row takes the zone and nothing else changes. A row outside the grid changes nothing. |
| Grid.FindIndex | src/components/Administration/CreateSeatmap.jsx:363-364 | Returns the first position holding the label, or -1 iff the label is absent. |
| Grid.BoundIndex | src/components/Administration/CreateSeatmap.jsx:361-364 | A given bound resolves to its first occurrence. An empty bound falls back to the first or last row label. |
| Grid.ApplyZoneBlock | src/components/Administration/CreateSeatmap.jsx:357-379 | With no zone name or an unfound bound nothing changes. Otherwise the rows between the two bounds, in either order, take the zone. |
| Grid.ZoneBlockSymmetric | src/components/Administration/CreateSeatmap.jsx:366 | With both bounds given, swapping them gives the same result. |
| Grid.ZoneBlockRegion | src/components/Administration/CreateSeatmap.jsx:357-379 | For labels present in the map, exactly the cells between their first occurrences get the zone. |
| Grid.ToggleColumn | src/components/Administration/CreateSeatmap.jsx:381-397 | A wholly blocked column becomes seats, keeping tags and zone. Any other column becomes blocked without tags. Other columns are untouched; an empty grid or an index outside the labels changes nothing. |
| Grid.ToggleTwice | src/components/Administration/CreateSeatmap.jsx:381-397 | Toggling a not-wholly-blocked column twice leaves it all seats without tags. |
| Grid.ToggleTwiceBlocked | src/components/Administration/CreateSeatmap.jsx:381-397 | Toggling a wholly blocked column twice restores the map. |
| Grid.ToggleTwiceRestores | src/components/Administration/CreateSeatmap.jsx:381-397 | Toggling a column of tagless seats twice restores the map. |
| Grid.GridSeatsUniform | src/components/Administration/CreateSeatmap.jsx:191-198 | Rows of n seats each make rows × n seats in total. |
| SeatCounts.MapsInOrder | src/components/Administration/CreateSeatmap.jsx:178 | `Object.values` lists one map per key, in key order. |
| SeatCounts.GridBuckets | src/components/Administration/CreateSeatmap.jsx:180-186 | Exactly one count increment per seat of the grid. |
| SeatCounts.TallyCounts | src/components/Administration/CreateSeatmap.jsx:176-189 | Exactly the classes that occur get a count, and each count equals that class's number of seats. |
| SeatCounts.TallyTotal | src/components/Administration/CreateSeatmap.jsx:176-189 | The counts add up to the number of seats counted. |
| SeatCounts.CountsMatchTotal | src/components/Administration/CreateSeatmap.jsx:176-198 | The per-class counts add up to totalSeats. |
| SeatCounts.CountsIgnoreCabinRecords | src/components/Administration/CreateSeatmap.jsx:179-183 | When every cell records its cabin name, renaming or reordering cabin records changes no count. |
| Seatmaps.BuildMaps | src/components/Administration/CreateSeatmap.jsx:99-106 | One map is filed per cabin key (id, or the fallback id), and no other key. |
| Seatmaps.BuildMapsFresh | src/components/Administration/CreateSeatmap.jsx:99-106 | Every cabin's key is filed. Its map is the fresh build of a cabin with that key, so it is in lockstep with its labels. |
| Seatmaps.BuildMapsDistinct | src/components/Administration/CreateSeatmap.jsx:99-106 | With distinct keys, keys follow cabin order and each holds its own cabin's build. |
| Seatmaps.FillMaps | src/components/Administration/CreateSeatmap.jsx:101-105 | The forEach over cabins computes exactly BuildMaps. |
| Seatmaps.EnsureSeatmap | src/components/Administration/CreateSeatmap.jsx:96-108 | Saved cabins are kept. Saved maps are kept unless there are none while there are cabins, in which case one is built per cabin. |
| Seatmaps.WithField | src/components/Administration/CreateSeatmap.jsx:271 | Editing a field never changes the cabin id. |
| Seatmaps.CabinsWithout | src/components/Administration/CreateSeatmap.jsx:306 | Exactly the cabins with another id remain. |
| Seatmaps.CountGrid | src/components/Administration/CreateSeatmap.jsx:180-186 | The row loop adds exactly one count per seat of the grid. |
| Seatmaps.CountRow | src/components/Administration/CreateSeatmap.jsx:181-185 | The cell loop adds one to `cell.cabin`, or the fallback name, per seat. |
| Seatmaps.NewCabinMap | src/components/Administration/CreateSeatmap.jsx:284-300 | A new cabin has rows "1".."10", columns A–F and an aisle at column 3, so 50 seats. |
| Seatmaps.SixColumnsThreeThree | src/components/Administration/CreateSeatmap.jsx:86-89 | Six columns under "3-3" are blocked exactly at index 3. |
| Seatmaps.SeatmapEditor.constructor | src/components/Administration/CreateSeatmap.jsx:117 | The initial state is `ensureSeatmap({})`: no cabins, no maps. |
| Seatmaps.SeatmapEditor.Load | src/components/Administration/CreateSeatmap.jsx:154 | Selecting an aircraft makes the state its ensured seatmap. |
| Seatmaps.SeatmapEditor.CabinSeatCount | src/components/Administration/CreateSeatmap.jsx:176-189 | The nested loops compute the tally of seat classes, and the counts sum to totalSeats. |
| Seatmaps.SeatmapEditor.ApplyToolToCell | src/components/Administration/CreateSeatmap.jsx:216-246 | An unknown cabin changes nothing. Otherwise only that cabin's map changes, by ApplyTool, in place. Lockstep is preserved. |
| Seatmaps.SeatmapEditor.RemoveRow | src/components/Administration/CreateSeatmap.jsx:248-256 | Only that cabin's map changes, by DropLastRow. |
| Seatmaps.SeatmapEditor.RemoveCol | src/components/Administration/CreateSeatmap.jsx:258-266 | Only that cabin's map changes, by DropLastCol. |
| Seatmaps.SeatmapEditor.UpdateCabinField | src/components/Administration/CreateSeatmap.jsx:268-273 | Every cabin with that id takes the field. The rest and the maps are untouched. |
| Seatmaps.SeatmapEditor.RegenerateGridFromCabins | src/components/Administration/CreateSeatmap.jsx:275-282 | Without cabins nothing changes. Otherwise the maps become exactly one fresh map per cabin id, all in lockstep. |
| Seatmaps.SeatmapEditor.AddCabin | src/components/Administration/CreateSeatmap.jsx:284-300 | The default Economy cabin is appended and its fresh map filed under its id. |
| Seatmaps.SeatmapEditor.DeleteCabin | src/components/Administration/CreateSeatmap.jsx:302-308 | Every cabin with that id and its map go. No other record or key changes. |
| Seatmaps.SeatmapEditor.UpdateRowLabel | src/components/Administration/CreateSeatmap.jsx:310-319 | Only that cabin's map changes, by RelabelRow. |
| Seatmaps.SeatmapEditor.UpdateColLabel | src/components/Administration/CreateSeatmap.jsx:321-330 | Only that cabin's map changes, by RelabelCol. |
| Seatmaps.SeatmapEditor.AssignRowZone | src/components/Administration/CreateSeatmap.jsx:332-345 | Only that cabin's map changes, by Grid.AssignRowZone. |
| Seatmaps.SeatmapEditor.ApplyZoneBlock | src/components/Administration/CreateSeatmap.jsx:357-379 | Only that cabin's map changes, by Grid.ApplyZoneBlock. |
| Seatmaps.SeatmapEditor.ToggleColumnAisle | src/components/Administration/CreateSeatmap.jsx:381-397 | Only that cabin's map changes, by ToggleColumn. |
| Boarding.TotalsPartition | src/components/Boarding/BoardingView.jsx:24-30 | The boarded, ready, hold and issue counts add up to the total. |
| Boarding.RemainingNotBoarded | src/components/Boarding/BoardingView.jsx:134 | "Remaining", max(total − boarded, 0), is exactly ready + hold + issues. |
| Boarding.FilteredMembers | src/components/Boarding/BoardingView.jsx:32-41 | A passenger is listed iff the tab is 'All' or its status, and the trimmed, lower-cased term is empty or occurs in its name, seq or seat. |
| Boarding.FilteredAll | src/components/Boarding/BoardingView.jsx:32-41 | 'All' with a blank search lists everyone, in order. |
| Boarding.Restatus | src/components/Boarding/BoardingView.jsx:49-77 | The listed passengers take the status and nobody else changes. Length and order are kept. |
| Boarding.RestatusCount | src/components/Boarding/BoardingView.jsx:49-57 | Moving passengers into a status never lowers its count or raises any other. |
| Boarding.Toggled | src/components/Boarding/BoardingView.jsx:43-47 | Toggling flips the passenger's membership only and never duplicates a seq. |
| Boarding.ToggleTwice | src/components/Boarding/BoardingView.jsx:43-47 | Toggling twice restores which passengers are selected, and restores the list exactly if the passenger was absent. |
| Boarding.FilteredDistinct | src/components/Boarding/BoardingView.jsx:181-184 | Selecting all shown passengers never lists one twice. |
| Boarding.BoardingControl.constructor | src/components/Boarding/BoardingView.jsx:21-22 | Starts with the passenger list and no selection. |
| Boarding.BoardingControl.Totals | src/components/Boarding/BoardingView.jsx:24-30 | The four status counts add up to the list length. |
| Boarding.BoardingControl.ToggleSelect | src/components/Boarding/BoardingView.jsx:43-47 | The selection becomes Toggled and the passengers are untouched. |
| Boarding.BoardingControl.BulkBoard | src/components/Boarding/BoardingView.jsx:49-57 | An empty selection changes nothing. Otherwise every selected passenger is boarded and the selection is cleared. |
| Boarding.BoardingControl.MarkHold | src/components/Boarding/BoardingView.jsx:59-63 | That passenger is put on hold and the selection is kept. |
| Boarding.BoardingControl.UnboardOne | src/components/Boarding/BoardingView.jsx:65-70 | That passenger returns to Ready and leaves the selection. |
| Boarding.BoardingControl.BoardOne | src/components/Boarding/BoardingView.jsx:72-77 | That passenger is boarded and leaves the selection. |
| Boarding.BoardingControl.SelectAll | src/components/Boarding/BoardingView.jsx:181-184 | Checked selects exactly the shown passengers' seqs, and unchecked selects none. |
| CheckIn.RunEnd | src/components/CheckIn/CheckInView.jsx:10 | `\d+` takes the whole run of digits. |
| CheckIn.FirstMatch | src/components/CheckIn/CheckInView.jsx:10 | Returns the leftmost position where `(\d+)([A-Z])` matches, or none if there is none. |
| CheckIn.IncrementSeat | src/components/CheckIn/CheckInView.jsx:8-15 | The result is empty iff the seat is empty. |
| CheckIn.IncrementSeatSpec | src/components/CheckIn/CheckInView.jsx:8-15 | No match gives the seat back. Otherwise the result is the leftmost match's whole digit run plus its letter advanced by index, and the surrounding text is dropped. |
| CheckIn.SeatCodeIncrement | src/components/CheckIn/CheckInView.jsx:8-15 | A seat "digits+letter" increments to the same digits and the advanced letter. |
| CheckIn.IncrementCompose | src/components/CheckIn/CheckInView.jsx:8-15 | Incrementing by a and then by b equals incrementing by a + b, while the letter stays upper-case. |
| CheckIn.FilterMembers | src/components/CheckIn/CheckInView.jsx:200-214 | Each search keeps exactly the passengers meeting its test, in list order. |
| CheckIn.FilterDistinct | src/components/CheckIn/CheckInView.jsx:258 | Filtering keeps distinct ids distinct. |
| CheckIn.IdSet | src/components/CheckIn/CheckInView.jsx:204-205 | The id set holds exactly the listed passengers' ids. |
| CheckIn.CollectIds | src/components/CheckIn/CheckInView.jsx:204-206 | The forEach-add loop yields the start set plus the matches' ids. |
| CheckIn.ToggledSplit | src/components/CheckIn/CheckInView.jsx:274-276 | That PNR's switch flips (absent counts as off), and other PNRs are untouched. |
| CheckIn.ToggleSplitTwice | src/components/CheckIn/CheckInView.jsx:274-276 | Toggling twice restores every PNR's switch. |
| CheckIn.Flipped | src/components/CheckIn/CheckInView.jsx:230-238 | Only that id's membership flips. |
| CheckIn.FlipTwice | src/components/CheckIn/CheckInView.jsx:230-238 | Toggling an id twice restores the set. |
| CheckIn.AssignedSpec | src/components/CheckIn/CheckInView.jsx:265-269 | Writing a list of seats over a group of distinct passengers gives member k the k-th seat and keeps its other inputs. Other passengers are untouched. |
| CheckIn.AssignSeats | src/components/CheckIn/CheckInView.jsx:265-270 | The forEach over the group gives member k the seat SeatFor(start, k), which is the start seat for k = 0 and the start seat advanced k times after that. The result is the write of SeatsFrom(start, size) that AssignedSpec describes. |
| CheckIn.AutoAssignSpec | src/components/CheckIn/CheckInView.jsx:257-272 | An empty group or a missing start seat means no change. Otherwise the k-th selected passenger of the PNR, in list order, gets the start seat advanced k times, and nobody else changes. |
| CheckIn.AutoAssignGroupSeats | src/components/CheckIn/CheckInView.jsx:257-272 | Without selected passengers of the booking or a start seat nothing changes; otherwise the k-th selected passenger of the booking gets the start seat advanced k times and keeps their other inputs. |
| CheckIn.AutoAssignOthersKept | src/components/CheckIn/CheckInView.jsx:257-272 | Passengers outside the group keep their inputs exactly. |
| CheckIn.AutoAssignOnlyGroup | src/components/CheckIn/CheckInView.jsx:257-272 | An unselected passenger, or one of another booking, keeps its inputs. |
| CheckIn.OfPnr | src/components/CheckIn/CheckInView.jsx:280-283 | Returns exactly the passengers of that booking. |
| CheckIn.GroupedSpec | src/components/CheckIn/CheckInView.jsx:278-286 | There is one group per PNR that occurs, holding exactly its passengers in list order. |
| CheckIn.GroupedKeys | src/components/CheckIn/CheckInView.jsx:278-286 | There is a group exactly for each PNR that occurs in the list. |
| CheckIn.GroupedValues | src/components/CheckIn/CheckInView.jsx:278-286 | Each group holds exactly that booking's passengers, in list order. |
| CheckIn.GroupByPnr | src/components/CheckIn/CheckInView.jsx:280-284 | The forEach-push loop computes exactly Grouped. |
| CheckIn.SelectedGroupsSpec | src/components/CheckIn/CheckInView.jsx:278-286 | A PNR has a group iff one of its passengers is selected, and the group holds exactly those selected passengers. |
| CheckIn.PassengerList.constructor | src/components/CheckIn/CheckInView.jsx:180-190 | Everyone is shown and there is no selection, query, PNR tag, input or split. |
| CheckIn.PassengerList.SetSearchQuery | src/components/CheckIn/CheckInView.jsx:339 | Only the query changes. |
| CheckIn.PassengerList.HandleSearch | src/components/CheckIn/CheckInView.jsx:194-223 | A blank query changes nothing. A P/ command shows and selects exactly the matching PNRs and sets the tag. Other text shows the matches and adds them to the selection. Both clear the query. |
| CheckIn.PassengerList.ToggleSelection | src/components/CheckIn/CheckInView.jsx:230-238 | The selection becomes Flipped and nothing else changes. |
| CheckIn.PassengerList.ClearFilters | src/components/CheckIn/CheckInView.jsx:241-247 | Shows the full list and clears the selection, PNR tag, splits and inputs. |
| CheckIn.PassengerList.InputChange | src/components/CheckIn/CheckInView.jsx:250-255 | Sets one field of one passenger's inputs and keeps the rest. |
| CheckIn.PassengerList.AutoAssignSeats | src/components/CheckIn/CheckInView.jsx:257-272 | The inputs become AutoAssigned and nothing else changes. |
| CheckIn.PassengerList.ToggleSplit | src/components/CheckIn/CheckInView.jsx:274-276 | The switches become ToggledSplit. |
| CheckIn.PassengerList.GetSelectedGroups | src/components/CheckIn/CheckInView.jsx:278-286 | Returns the selected passengers, in list order, grouped by PNR. |
| Flights.FilteredFlightsSpec | src/pages/FlightList.jsx:42-50 | A flight is listed iff the search is empty or in its lower-cased route or number, the date filter is empty or equal, and the status filter is 'All' or equal. |
| Flights.FilteredFlightsAll | src/pages/FlightList.jsx:42-50 | With every filter off the whole table is listed, in order. |
| Flights.FindScheme | src/pages/FlightList.jsx:30 | A found scheme has that name, and nothing is found only if no scheme has it. |
| Flights.GetScheme | src/pages/FlightList.jsx:30 | Returns the scheme of that name, or the first (blue) scheme for an unknown or absent colour. |
| Flights.ColorFor | src/pages/FlightList.jsx:75-79 | A tab opened after n tabs gets scheme n mod 3 (the same choice is made for an empty tab at line 91). |
| Flights.FindTab | src/pages/FlightList.jsx:53 | Returns a tab with that id, or nothing iff no tab has it. |
| Flights.OpenIn | src/pages/FlightList.jsx:56-66 | Every tab with the active id becomes the flight's loaded tab. Others and the count are kept. |
| Flights.Loaded | src/pages/FlightList.jsx:52-87 | After loading, the flight's number is the active id and the counter is unchanged. |
| Flights.LoadedSpec | src/pages/FlightList.jsx:52-87 | An empty active tab is opened in place. Otherwise an existing tab of the flight is activated, or a loaded tab is appended. The flight's tab ends active and the tab-bar invariant holds. |
| Flights.LoadedInPlace | src/pages/FlightList.jsx:53-69 | An empty active tab takes the flight in place: the tabs become OpenIn, the flight's number becomes active, and the invariant holds. |
| Flights.LoadedAppended | src/pages/FlightList.jsx:70-86 | A flight without a tab gets a loaded tab at the end, coloured by the tab count, and the invariant holds. |
| Flights.AddedTab | src/pages/FlightList.jsx:89-95 | The counter goes up by one. |
| Flights.AddedTabFresh | src/pages/FlightList.jsx:89-95 | The new id `new-(n+1)` is not an open tab's id. |
| Flights.NewTabIdForm | src/pages/FlightList.jsx:90 | `new-${n+1}` has the `new-<digits>` form and its digits read back as n + 1. |
| Flights.NewTabIdInjective | src/pages/FlightList.jsx:89-95 | Distinct counter values give distinct ids. |
| Flights.AddedTabSpec | src/pages/FlightList.jsx:89-95 | One empty 'New Flight' tab with the fresh id is appended and activated, and the invariant holds. |
| Flights.InitialValid | src/pages/FlightList.jsx:11-19 | The initial tab bar satisfies the invariant: there is a tab, the active id names one, and no tab holds an id the counter will still hand out. |
| Flights.TableNumbers | src/pages/FlightList.jsx:32-39 | No flight number in the table equals any id `new-<n>` an empty tab can get. |
| Flights.WithoutTab | src/pages/FlightList.jsx:99 | Exactly the tabs with another id remain. |
| Flights.Closed | src/pages/FlightList.jsx:97-104 | Closing with a single tab changes nothing, and the counter is kept. |
| Flights.ClosedSpec | src/pages/FlightList.jsx:97-104 | Closing keeps a tab and a valid active id. When another tab remains it removes every tab with that id, and the first remaining tab becomes active if the active tab was closed. |
| Flights.ClosedAgrees | src/pages/FlightList.jsx:97-104 | The guarded close equals the written one wherever the written one does not throw. |
| Flights.CloseCrashes | src/pages/FlightList.jsx:53-69 | Loading BS101, adding a tab and loading BS101 again gives two tabs with one id, and closing it throws. |
| Flights.TabBar.constructor | src/pages/FlightList.jsx:11-19 | One empty tab 'new-1', active, counter 1, invariant holds. |
| Flights.TabBar.LoadFlight | src/pages/FlightList.jsx:52-87 | The state becomes Loaded and the invariant is kept. |
| Flights.TabBar.AddNewTab | src/pages/FlightList.jsx:89-95 | The state becomes AddedTab and the invariant is kept. |
| Flights.TabBar.CloseTab | src/pages/FlightList.jsx:97-104 | The state becomes Closed, the guarded close, and the invariant is kept. |

## Left out

- Page rendering, routing, icons, styles and the check-in seat-map sidebar are static display.
- `localStorage`, `JSON.parse` and the aircraft picker are not modelled. `ensureSeatmap` takes the saved seatmap as a value, with absent parts as `None`.
- Clock-based ids (`cabin-${Date.now()}`) are parameters. `ensureSeatmap` is given one fallback id for all id-less cabins, as the loop would get when it runs within one millisecond. `addCabin` is given the new id.
- `activeTool`, `zoneName` and the zone-block form are handler parameters. `updateZoneBlockField` only stores form text and is not modelled.
- Labels.LabelRange: `Number()` is modelled only on plain decimal digit strings. Forms such as " 12 ", "1.5", "1e2" or "0x1A", which JavaScript also reads as numbers, fall into the character branch here.
- Layout.GroupSize: a token counts as a group only when it trims to a plain decimal numeral with a positive value. JavaScript's `Number()` also accepts "+3", "3.", "0x3" and "3e0" (groups of 3), a fraction such as "1.5" (the push loop `i < 1.5` emits 2 seats) and "Infinity" (the push loop never ends). The model drops all of these tokens as non-groups.
- Grid.ApplyTool: a row index outside the grid makes the source throw (`map.grid[rowIdx][colIdx]`), so it is a precondition. The palette only offers existing cells.
- Grid.ApplyTool: `next.tags.push` also mutates the old cell's tag array, which aliases the previous state. The model is value-based and does not capture that aliasing.
- Grid.RelabelRow, Grid.RelabelCol: an index past the labels would make JavaScript grow a sparse array. Since the inputs are rendered from the labels, the index is a precondition. The assignments at src/components/Administration/CreateSeatmap.jsx:315 and :326 have no guard; the model follows the code's reachable behaviour.
- Seatmaps.SeatmapEditor.RegenerateGridFromCabins: a cabin's missing id is modelled as "", so such a cabin is filed under "". JavaScript's `cabinMaps[cabin.id]` files a cabin without an `id` property under the key "undefined". The model does not tell a missing id from an empty one.
- Dict: JavaScript puts integer-like keys (e.g. "12") before other keys whatever the insertion order. The model keeps plain insertion order, and keys such as "__proto__" are treated as ordinary keys.
- Text: case mapping is ASCII-only, and white space is the common ASCII and BMP marks. Non-ASCII case rules (e.g. "ß" to "SS") are not modelled.
- CharOfUnit: a lone surrogate code unit becomes U+FFFD, because a Dafny character cannot hold one.
- JavaScript strings and numbers are modelled as sequences of characters and unbounded integers. No label or count comes close to 2^53.
- BoardingView's progress bar percentages, drag handles and header-checkbox display state are display-only.
- CheckIn: `selectedIds` is a `Set` whose insertion order the handlers never read, so it is a Dafny set. The inputs object is a map of per-passenger field maps.
- CheckIn.GroupByPnr: `groups[p.pnr]` for a PNR such as "constructor" would find an inherited property in JavaScript. The model treats every PNR as a fresh key.
- Flights.Loaded: the source does not check whether another tab already holds the flight before loading it into an empty tab. The model keeps that behaviour; see Findings.

## Findings

| source | as written | input that shows it | evidently intended | confidence | as-written member | corrected member |
|---|---|---|---|---|---|---|
| src/pages/FlightList.jsx:97-104 | With two or more tabs, closing an id that every tab shares filters all tabs away, and then `newTabs[0].id` throws. Loading a flight into an empty tab (lines 53-69) does not look for a tab that already holds it, so two tabs can share an id. | Load BS101, add a tab, load BS101 into the new empty tab, then close BS101 | Closing never leaves the bar without tabs; a close that would remove every tab does nothing, like closing the only tab | not executed | Flights.ClosedAsWritten, Flights.CloseCrashes | Flights.Closed, Flights.ClosedSpec |
