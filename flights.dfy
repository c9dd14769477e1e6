// Departure flight list: the flight filter, the tab colour schemes and the
// tab bar in which flights are opened (load into the current tab or a new
// one, add an empty tab, close a tab).

module Flights {
  import opened Wrappers
  import opened Text

  datatype Flight = Flight(flight: string, route: string, date: string, std: string, status: string,
                           reg: string, gate: string, pcb: string, timing: string)

  /** The departures the list shows. */
  const FlightTable: seq<Flight> := [
    Flight("BS101", "CGP-DAC", "2025-11-16", "14:30", "CKO", "G-XLEB", "A1", "250/10/30", "On Time"),
    Flight("BS103", "DAC-CGP", "2025-11-16", "15:00", "OPN", "N751AN", "B2", "200/8/0", "Delayed"),
    Flight("BS143", "DAC-ZYL", "2025-11-16", "16:00", "Closed", "N801DN", "C1", "180/43/22", "On Time"),
    Flight("BS202", "JED-DAC", "2025-11-16", "18:00", "CKC-BDO", "S2-AEF", "D4", "300/12/45", "Boarding"),
    Flight("BS303", "DAC-LHR", "2025-11-17", "10:00", "CKC-BDC", "G-XLEB", "A1", "150/8/20", "On Time"),
    Flight("BS404", "DAC-CXB", "2025-11-17", "11:00", "XLD", "S2-AHW", "D2", "0/0/0", "Delayed")
  ]

  // ---------------------------------------------------------------------------
  // filteredFlights
  // ---------------------------------------------------------------------------

  /** The three filters above the table, each off when empty or 'All'. */
  predicate ShowsFlight(f: Flight, searchOrigin: string, filterDate: string, statusFilter: string)
  {
    var term := ToLower(searchOrigin);
    && (searchOrigin == "" || Contains(ToLower(f.route), term) || Contains(ToLower(f.flight), term))
    && (filterDate == "" || f.date == filterDate)
    && (statusFilter == "All" || f.status == statusFilter)
  }

  /** filteredFlights */
  function FilteredFlights(flights: seq<Flight>, searchOrigin: string, filterDate: string, statusFilter: string): (r: seq<Flight>)
    ensures |r| <= |flights|
  {
    if flights == [] then []
    else
      var last := flights[|flights| - 1];
      FilteredFlights(flights[..|flights| - 1], searchOrigin, filterDate, statusFilter)
        + (if ShowsFlight(last, searchOrigin, filterDate, statusFilter) then [last] else [])
  }

  /** A flight is listed iff it passes all three filters. */
  lemma {:induction false} FilteredFlightsSpec(flights: seq<Flight>, searchOrigin: string, filterDate: string, statusFilter: string)
    ensures forall f :: f in FilteredFlights(flights, searchOrigin, filterDate, statusFilter) <==>
                        f in flights && ShowsFlight(f, searchOrigin, filterDate, statusFilter)
  {
    if flights != [] {
      FilteredFlightsSpec(flights[..|flights| - 1], searchOrigin, filterDate, statusFilter);
      assert flights == flights[..|flights| - 1] + [flights[|flights| - 1]];
    }
  }

  /** With every filter off the whole table is listed, in order. */
  lemma {:induction false} FilteredFlightsAll(flights: seq<Flight>)
    ensures FilteredFlights(flights, "", "", "All") == flights
  {
    if flights != [] {
      FilteredFlightsAll(flights[..|flights| - 1]);
      assert flights == flights[..|flights| - 1] + [flights[|flights| - 1]];
    }
  }

  // ---------------------------------------------------------------------------
  // Colour schemes
  // ---------------------------------------------------------------------------

  datatype Scheme = Scheme(name: string, bg: string, text: string, border: string, accent: string, icon: string, button: string)

  const ColorSchemes: seq<Scheme> := [
    Scheme("blue", "bg-blue-100", "text-blue-700", "border-blue-200", "border-t-blue-600", "text-blue-600", "bg-blue-600 hover:bg-blue-700"),
    Scheme("emerald", "bg-emerald-100", "text-emerald-700", "border-emerald-200", "border-t-emerald-600", "text-emerald-600", "bg-emerald-600 hover:bg-emerald-700"),
    Scheme("orange", "bg-orange-100", "text-orange-700", "border-orange-200", "border-t-orange-600", "text-orange-600", "bg-orange-600 hover:bg-orange-700")
  ]

  /** `schemes.find(c => c.name === colorName)` */
  function FindScheme(schemes: seq<Scheme>, colorName: string): (r: Option<Scheme>)
    ensures r.Some? ==> r.value in schemes && r.value.name == colorName
    ensures r.None? ==> forall s :: s in schemes ==> s.name != colorName
  {
    if schemes == [] then None
    else if schemes[0].name == colorName then Some(schemes[0])
    else FindScheme(schemes[1..], colorName)
  }

  /** getScheme: the scheme of that name, or the first (blue) one for an
      unknown or absent colour. */
  function GetScheme(colorName: Option<string>): (s: Scheme)
    ensures s in ColorSchemes
    ensures colorName.Some? && (exists c :: c in ColorSchemes && c.name == colorName.value) ==> s.name == colorName.value
    ensures (colorName.None? || forall c :: c in ColorSchemes ==> c.name != colorName.value) ==> s == ColorSchemes[0]
  {
    if colorName.None? then ColorSchemes[0]
    else
      match FindScheme(ColorSchemes, colorName.value)
      case Some(s) => s
      case None => ColorSchemes[0]
  }

  /** `colorSchemes[n % colorSchemes.length].name`: tabs cycle through the
      three colours. */
  function ColorFor(tabCount: nat): (name: string)
    ensures GetScheme(Some(name)) == ColorSchemes[tabCount % 3]
  {
    var s := ColorSchemes[tabCount % 3];
    assert s in ColorSchemes;
    s.name
  }

  // ---------------------------------------------------------------------------
  // Tabs
  // ---------------------------------------------------------------------------

  datatype Tab = Tab(id: string, name: string, color: string, loaded: bool, flightData: Option<Flight>)

  /** The tab bar: the tabs, the active tab's id and the counter that numbers
      new empty tabs. */
  datatype Bar = Bar(tabs: seq<Tab>, active: string, next: nat)

  /** One empty tab, 'new-1', counter at 1. */
  function InitialBar(): Bar
  {
    Bar([Tab("new-1", "New Flight", "blue", false, None)], "new-1", 1)
  }

  function TabIds(tabs: seq<Tab>): (r: seq<string>)
    ensures |r| == |tabs| && forall i :: 0 <= i < |tabs| ==> r[i] == tabs[i].id
  {
    seq(|tabs|, i requires 0 <= i < |tabs| => tabs[i].id)
  }

  /** `tabs.find(t => t.id === id)` */
  function FindTab(tabs: seq<Tab>, id: string): (r: Option<Tab>)
    ensures r.Some? ==> r.value in tabs && r.value.id == id
    ensures r.None? <==> id !in TabIds(tabs)
  {
    if tabs == [] then None
    else if tabs[0].id == id then Some(tabs[0])
    else
      assert TabIds(tabs) == [tabs[0].id] + TabIds(tabs[1..]);
      FindTab(tabs[1..], id)
  }

  /** The tab the flight is opened in: id and name are its flight number. */
  function Opened(t: Tab, f: Flight): Tab
  {
    t.(id := f.flight, name := f.flight, flightData := Some(f), loaded := true)
  }

  /** `tabs.map(t => t.id === activeTabId ? {...t, flight fields} : t)` */
  function OpenIn(tabs: seq<Tab>, active: string, f: Flight): (r: seq<Tab>)
    ensures |r| == |tabs|
    ensures forall i :: 0 <= i < |tabs| ==> r[i] == if tabs[i].id == active then Opened(tabs[i], f) else tabs[i]
  {
    seq(|tabs|, i requires 0 <= i < |tabs| => if tabs[i].id == active then Opened(tabs[i], f) else tabs[i])
  }

  /** handleLoadFlight */
  function Loaded(b: Bar, f: Flight): (r: Bar)
    ensures r.next == b.next
    ensures r.active == f.flight
  {
    var current := FindTab(b.tabs, b.active);
    if current.Some? && !current.value.loaded then
      Bar(OpenIn(b.tabs, b.active, f), f.flight, b.next)
    else if FindTab(b.tabs, f.flight).Some? then
      Bar(b.tabs, f.flight, b.next)
    else
      Bar(b.tabs + [Tab(f.flight, f.flight, ColorFor(|b.tabs|), true, Some(f))], f.flight, b.next)
  }

  /** `new-${n + 1}` */
  function NewTabId(n: nat): string
  {
    "new-" + NatToString(n + 1)
  }

  /** handleAddNewTab */
  function AddedTab(b: Bar): (r: Bar)
    ensures r.next == b.next + 1
  {
    var id := NewTabId(b.next);
    Bar(b.tabs + [Tab(id, "New Flight", ColorFor(|b.tabs|), false, None)], id, b.next + 1)
  }

  /** `tabs.filter(t => t.id !== id)` */
  function WithoutTab(tabs: seq<Tab>, id: string): (r: seq<Tab>)
    ensures forall t :: t in r <==> t in tabs && t.id != id
    ensures |r| <= |tabs|
  {
    if tabs == [] then []
    else
      assert tabs == [tabs[0]] + tabs[1..];
      (if tabs[0].id != id then [tabs[0]] else []) + WithoutTab(tabs[1..], id)
  }

  /** handleCloseTab as written: when the filter leaves no tab and the closed
      tab was active, `newTabs[0].id` reads past the end and the handler
      throws (None). */
  function ClosedAsWritten(b: Bar, id: string): (r: Option<Bar>)
  {
    if |b.tabs| == 1 then Some(b)
    else
      var rest := WithoutTab(b.tabs, id);
      if b.active == id then
        if rest == [] then None else Some(Bar(rest, rest[0].id, b.next))
      else Some(Bar(rest, b.active, b.next))
  }

  /** handleCloseTab as evidently intended: a close that would leave no tab at
      all changes nothing, as closing the only tab does. */
  function Closed(b: Bar, id: string): (r: Bar)
    ensures r.next == b.next
    ensures |b.tabs| == 1 ==> r == b
  {
    if |b.tabs| == 1 then b
    else
      var rest := WithoutTab(b.tabs, id);
      if rest == [] then b
      else if b.active == id then Bar(rest, rest[0].id, b.next)
      else Bar(rest, b.active, b.next)
  }

  /** `new-<n>`: the form of an empty tab's id. */
  predicate IsNewTabId(s: string)
  {
    |s| > 4 && s[..4] == "new-" && AllDigits(s[4..])
  }

  /** The tab bar's invariant: there is always a tab, the active id is one of
      them, and no tab has an id that the counter will still hand out. */
  ghost predicate Valid(b: Bar)
  {
    && |b.tabs| >= 1
    && b.active in TabIds(b.tabs)
    && forall t, m: nat :: t in b.tabs && m >= b.next ==> t.id != NewTabId(m)
  }

  /** The departures the table lists. */
  predicate FromTable(f: Flight)
  {
    f in FlightTable
  }

  /** No flight number in the table is an empty tab's id. */
  lemma TableNumbers(f: Flight)
    requires FromTable(f)
    ensures forall m: nat :: f.flight != NewTabId(m)
  {
    assert f.flight[0] == 'B';
    forall m: nat ensures f.flight != NewTabId(m) {
      assert NewTabId(m)[0] == 'n';
    }
  }

  /** `new-${n + 1}` has the `new-<n>` form and reads back as n + 1. */
  lemma NewTabIdForm(n: nat)
    ensures IsNewTabId(NewTabId(n)) && ParseNat(NewTabId(n)[4..]) == n + 1
  {
    var s := NewTabId(n);
    assert s[..4] == "new-" && s[4..] == NatToString(n + 1);
    ParseNatToString(n + 1);
  }

  /** Distinct counter values give distinct ids. */
  lemma NewTabIdInjective(m: nat, n: nat)
    requires m != n
    ensures NewTabId(m) != NewTabId(n)
  {
    NatToStringInjective(m + 1, n + 1);
    assert NewTabId(m)[4..] == NatToString(m + 1);
    assert NewTabId(n)[4..] == NatToString(n + 1);
  }

  lemma InitialValid()
    ensures Valid(InitialBar())
  {
    var b := InitialBar();
    assert NewTabId(0) == "new-1";
    assert TabIds(b.tabs)[0] == b.active;
    forall t, m: nat | t in b.tabs && m >= b.next ensures t.id != NewTabId(m) {
      NewTabIdInjective(m, 0);
    }
  }

  /** The id a new empty tab gets is not the id of any open tab. */
  lemma AddedTabFresh(b: Bar)
    requires Valid(b)
    ensures NewTabId(b.next) !in TabIds(b.tabs)
  {
  }

  /** handleAddNewTab appends one empty tab with the fresh id, activates it and
      keeps the invariant. */
  lemma AddedTabSpec(b: Bar)
    requires Valid(b)
    ensures var r := AddedTab(b);
      && r.tabs == b.tabs + [Tab(NewTabId(b.next), "New Flight", ColorFor(|b.tabs|), false, None)]
      && r.active == NewTabId(b.next)
      && NewTabId(b.next) !in TabIds(b.tabs)
      && Valid(r)
  {
    AddedTabFresh(b);
    var r := AddedTab(b);
    assert TabIds(r.tabs)[|b.tabs|] == r.active;
    forall t, m: nat | t in r.tabs && m >= r.next ensures t.id != NewTabId(m) {
      if t !in b.tabs {
        NewTabIdInjective(m, b.next);
      }
    }
  }

  /** Loading a flight: if the active tab is empty it is opened in place (the
      tab count stays); otherwise a tab already holding that flight is just
      activated, or a new loaded tab is appended. Either way that flight's tab
      ends up active and the invariant holds. */
  lemma LoadedSpec(b: Bar, f: Flight)
    requires Valid(b) && FromTable(f)
    ensures var r := Loaded(b, f);
      && r.active == f.flight && f.flight in TabIds(r.tabs) && Valid(r)
    ensures var current := FindTab(b.tabs, b.active);
      current.Some? && !current.value.loaded ==> Loaded(b, f).tabs == OpenIn(b.tabs, b.active, f)
    ensures var current := FindTab(b.tabs, b.active);
      !(current.Some? && !current.value.loaded) && f.flight in TabIds(b.tabs) ==> Loaded(b, f).tabs == b.tabs
    ensures var current := FindTab(b.tabs, b.active);
      !(current.Some? && !current.value.loaded) && f.flight !in TabIds(b.tabs) ==>
        Loaded(b, f).tabs == b.tabs + [Tab(f.flight, f.flight, ColorFor(|b.tabs|), true, Some(f))]
  {
    var current := FindTab(b.tabs, b.active);
    if current.Some? && !current.value.loaded {
      LoadedInPlace(b, f);
    } else if f.flight !in TabIds(b.tabs) {
      LoadedAppended(b, f);
    }
  }

  /** An empty active tab takes the flight in place. */
  lemma LoadedInPlace(b: Bar, f: Flight)
    requires Valid(b) && FromTable(f)
    requires FindTab(b.tabs, b.active).Some? && !FindTab(b.tabs, b.active).value.loaded
    ensures Loaded(b, f) == Bar(OpenIn(b.tabs, b.active, f), f.flight, b.next)
    ensures f.flight in TabIds(Loaded(b, f).tabs) && Valid(Loaded(b, f))
  {
    TableNumbers(f);
    var tabs := OpenIn(b.tabs, b.active, f);
    var i :| 0 <= i < |b.tabs| && TabIds(b.tabs)[i] == b.active;
    assert TabIds(tabs)[i] == f.flight;
    forall t, m: nat | t in tabs && m >= b.next ensures t.id != NewTabId(m) {
      var k :| 0 <= k < |tabs| && tabs[k] == t;
      if b.tabs[k].id != b.active {
        assert t == b.tabs[k] && t in b.tabs;
      }
    }
  }

  /** Otherwise a flight without a tab gets a loaded tab at the end. */
  lemma LoadedAppended(b: Bar, f: Flight)
    requires Valid(b) && FromTable(f)
    requires !(FindTab(b.tabs, b.active).Some? && !FindTab(b.tabs, b.active).value.loaded)
    requires f.flight !in TabIds(b.tabs)
    ensures Loaded(b, f).tabs == b.tabs + [Tab(f.flight, f.flight, ColorFor(|b.tabs|), true, Some(f))]
    ensures f.flight in TabIds(Loaded(b, f).tabs) && Valid(Loaded(b, f))
  {
    TableNumbers(f);
    var tabs := b.tabs + [Tab(f.flight, f.flight, ColorFor(|b.tabs|), true, Some(f))];
    assert TabIds(tabs)[|b.tabs|] == f.flight;
  }

  /** The evidently intended close keeps the invariant — in particular there is
      always a tab left and the active id names one of them — and it removes
      every tab with that id whenever another tab remains. */
  lemma ClosedSpec(b: Bar, id: string)
    requires Valid(b)
    ensures Valid(Closed(b, id))
    ensures |b.tabs| > 1 && WithoutTab(b.tabs, id) != [] ==>
      && Closed(b, id).tabs == WithoutTab(b.tabs, id)
      && Closed(b, id).active == (if b.active == id then WithoutTab(b.tabs, id)[0].id else b.active)
  {
    var rest := WithoutTab(b.tabs, id);
    if |b.tabs| > 1 && rest != [] {
      if b.active == id {
        assert TabIds(rest)[0] == rest[0].id;
      } else {
        var i :| 0 <= i < |b.tabs| && TabIds(b.tabs)[i] == b.active;
        assert b.tabs[i] in rest;
        var k :| 0 <= k < |rest| && rest[k] == b.tabs[i];
        assert TabIds(rest)[k] == b.active;
      }
    }
  }

  /** The corrected close differs from the written one only where the written
      one throws. */
  lemma ClosedAgrees(b: Bar, id: string)
    requires Valid(b) && ClosedAsWritten(b, id).Some?
    ensures Closed(b, id) == ClosedAsWritten(b, id).value
  {
    if |b.tabs| != 1 && b.active != id {
      var i :| 0 <= i < |b.tabs| && TabIds(b.tabs)[i] == b.active;
      assert b.tabs[i] in WithoutTab(b.tabs, id);
    }
  }

  // ---------------------------------------------------------------------------
  // The discrepancy: loading a flight into an empty tab does not look for a
  // tab that already holds it, so two tabs can share an id; closing that id
  // then filters every tab away and the written handler throws.
  // ---------------------------------------------------------------------------

  /** Open BS101, add an empty tab, open BS101 again in it: both tabs are
      BS101, and closing BS101 throws. */
  lemma CloseCrashes(f: Flight)
    requires f == FlightTable[0]
    ensures var b := Loaded(AddedTab(Loaded(InitialBar(), f)), f);
      && TabIds(b.tabs) == [f.flight, f.flight]
      && b.active == f.flight
      && ClosedAsWritten(b, f.flight).None?
  {
    var b0 := InitialBar();
    var b1 := Loaded(b0, f);
    assert FindTab(b0.tabs, b0.active) == Some(b0.tabs[0]);
    assert b1.tabs == [Opened(b0.tabs[0], f)];
    var b2 := AddedTab(b1);
    var id := NewTabId(1);
    assert id[4..] == NatToString(2);
    assert id != f.flight;
    assert b2.tabs == [Opened(b0.tabs[0], f), Tab(id, "New Flight", ColorFor(1), false, None)];
    assert FindTab(b2.tabs, id) == Some(b2.tabs[1]);
    var b3 := Loaded(b2, f);
    assert b3.tabs == [Opened(b0.tabs[0], f), Opened(b2.tabs[1], f)];
    assert WithoutTab(b3.tabs, f.flight) == [];
  }

  // ---------------------------------------------------------------------------
  // The tab bar component.
  // ---------------------------------------------------------------------------

  class TabBar {
    var tabs: seq<Tab>
    var activeTabId: string
    var nextNewFlightNum: nat

    function State(): Bar
      reads this
    {
      Bar(tabs, activeTabId, nextNewFlightNum)
    }

    constructor ()
      ensures State() == InitialBar() && Valid(State())
    {
      tabs := [Tab("new-1", "New Flight", "blue", false, None)];
      activeTabId := "new-1";
      nextNewFlightNum := 1;
      InitialValid();
    }

    /** handleLoadFlight, for a row of the flight table. */
    method LoadFlight(f: Flight)
      requires Valid(State()) && FromTable(f)
      modifies this
      ensures State() == Loaded(old(State()), f) && Valid(State())
    {
      LoadedSpec(State(), f);
      var currentTab := FindTab(tabs, activeTabId);
      if currentTab.Some? && !currentTab.value.loaded {
        tabs := OpenIn(tabs, activeTabId, f);
        activeTabId := f.flight;
      } else {
        var existingTab := FindTab(tabs, f.flight);
        if existingTab.Some? {
          activeTabId := f.flight;
        } else {
          var newTab := Tab(f.flight, f.flight, ColorFor(|tabs|), true, Some(f));
          tabs := tabs + [newTab];
          activeTabId := f.flight;
        }
      }
    }

    /** handleAddNewTab */
    method AddNewTab()
      requires Valid(State())
      modifies this
      ensures State() == AddedTab(old(State())) && Valid(State())
    {
      AddedTabSpec(State());
      var newId := NewTabId(nextNewFlightNum);
      tabs := tabs + [Tab(newId, "New Flight", ColorFor(|tabs|), false, None)];
      activeTabId := newId;
      nextNewFlightNum := nextNewFlightNum + 1;
    }

    /** handleCloseTab, with the empty-result guard. */
    method CloseTab(id: string)
      requires Valid(State())
      modifies this
      ensures State() == Closed(old(State()), id) && Valid(State())
    {
      ClosedSpec(State(), id);
      if |tabs| == 1 {
        return;
      }
      var newTabs := WithoutTab(tabs, id);
      if newTabs == [] {
        return;
      }
      tabs := newTabs;
      if activeTabId == id {
        activeTabId := newTabs[0].id;
      }
    }
  }
}
