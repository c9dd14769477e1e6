// Check-in passenger list: the search box (a PNR command or a name/ticket
// search), the selection of passengers by id, the per-PNR "split" switches,
// the per-passenger inputs of the check-in panel and the sequential seat
// auto-assignment of a booking.

module CheckIn {
  import opened Wrappers
  import opened Text
  import opened Dicts

  /** A passenger record of the check-in list (the fields the handlers read). */
  datatype Pax = Pax(id: int, name: string, seat: string, pnr: string, ticket: string)

  // ---------------------------------------------------------------------------
  // incrementSeat: the first run of digits followed by an upper-case letter is
  // the seat; the letter is advanced by `index` code units.
  // ---------------------------------------------------------------------------

  /** The end of the run of digits that starts at `i`. */
  function RunEnd(s: string, i: nat): (j: nat)
    requires i <= |s|
    ensures i <= j <= |s|
    ensures forall k :: i <= k < j ==> IsDigit(s[k])
    ensures j == |s| || !IsDigit(s[j])
    decreases |s| - i
  {
    if i < |s| && IsDigit(s[i]) then RunEnd(s, i + 1) else i
  }

  /** `/(\d+)([A-Z])/` matches at `i`: a digit run starts there and the
      character right after the whole run is an upper-case letter (a shorter
      run cannot be followed by a letter, since a digit follows it). */
  predicate MatchAt(s: string, i: nat)
  {
    i < |s| && IsDigit(s[i]) && RunEnd(s, i) < |s| && IsUpperAscii(s[RunEnd(s, i)])
  }

  /** The leftmost match at or after `i`. */
  function FirstMatch(s: string, i: nat): (m: Option<nat>)
    requires i <= |s|
    ensures m.Some? ==> i <= m.value < |s| && MatchAt(s, m.value) && forall k :: i <= k < m.value ==> !MatchAt(s, k)
    ensures m.None? ==> forall k :: i <= k < |s| ==> !MatchAt(s, k)
    decreases |s| - i
  {
    if i == |s| then None else if MatchAt(s, i) then Some(i) else FirstMatch(s, i + 1)
  }

  /** `String.fromCharCode(c.charCodeAt(0) + index)` */
  function Shift(c: char, index: nat): char
  {
    CharOfUnit(CodeUnit(c) + index)
  }

  /** incrementSeat */
  function IncrementSeat(start: string, index: nat): (r: string)
    ensures r == [] <==> start == []
  {
    if start == [] then []
    else
      match FirstMatch(start, 0)
      case None => start
      case Some(i) =>
        var j := RunEnd(start, i);
        start[i..j] + [Shift(start[j], index)]
  }

  /** Without a match the seat comes back unchanged; with one, the result is the
      leftmost match's digits (a whole digit run) and its letter advanced by
      `index`, and everything around the match is dropped. */
  lemma IncrementSeatSpec(s: string, index: nat)
    ensures (forall k :: 0 <= k < |s| ==> !MatchAt(s, k)) ==> IncrementSeat(s, index) == s
    ensures (exists k :: 0 <= k < |s| && MatchAt(s, k)) ==>
      exists i :: 0 <= i < |s| && MatchAt(s, i) && (forall k :: 0 <= k < i ==> !MatchAt(s, k))
        && (i == 0 || !IsDigit(s[i - 1]))
        && IncrementSeat(s, index) == s[i..RunEnd(s, i)] + [Shift(s[RunEnd(s, i)], index)]
  {
    var m := FirstMatch(s, 0);
    if m.Some? {
      IncrementAtMatch(s, index, m.value);
    } else {
      assert IncrementSeat(s, index) == s;
    }
  }

  /** The leftmost match starts a digit run, and the result is built from it. */
  lemma IncrementAtMatch(s: string, index: nat, i: nat)
    requires FirstMatch(s, 0) == Some(i)
    ensures i < |s| && MatchAt(s, i) && (forall k :: 0 <= k < i ==> !MatchAt(s, k))
    ensures i == 0 || !IsDigit(s[i - 1])
    ensures IncrementSeat(s, index) == s[i..RunEnd(s, i)] + [Shift(s[RunEnd(s, i)], index)]
  {
    if i > 0 {
      NoDigitBefore(s, i);
    }
  }

  /** A match whose left neighbour does not match is not preceded by a digit. */
  lemma NoDigitBefore(s: string, i: nat)
    requires 0 < i && MatchAt(s, i) && !MatchAt(s, i - 1)
    ensures !IsDigit(s[i - 1])
  {
  }

  lemma {:induction false} RunEndAt(s: string, i: nat, j: nat)
    requires i <= j <= |s|
    requires forall k :: i <= k < j ==> IsDigit(s[k])
    requires j == |s| || !IsDigit(s[j])
    ensures RunEnd(s, i) == j
    decreases j - i
  {
    if i < j {
      RunEndAt(s, i + 1, j);
    }
  }

  /** A seat code — digits, then a letter — increments to the same digits
      and the advanced letter. */
  lemma SeatCodeIncrement(digits: string, letter: char, index: nat)
    requires IsDecimal(digits) && IsUpperAscii(letter)
    ensures IncrementSeat(digits + [letter], index) == digits + [Shift(letter, index)]
  {
    var s := digits + [letter];
    RunEndAt(s, 0, |digits|);
    assert MatchAt(s, 0);
    assert s[0..|digits|] == digits;
  }

  /** Advancing a letter by a and then by b is advancing it by a + b, while the
      intermediate letter is still upper-case. */
  lemma ShiftCompose(c: char, a: nat, b: nat)
    requires IsUpperAscii(Shift(c, a))
    ensures Shift(Shift(c, a), b) == Shift(c, a + b)
  {
    var u := (CodeUnit(c) + a) % 0x1_0000;
    assert Shift(c, a) as int == u;
    assert (u + b) % 0x1_0000 == (CodeUnit(c) + a + b) % 0x1_0000;
  }

  /** Incrementing twice is incrementing by the sum, as long as the first step
      still lands on a letter. */
  lemma IncrementCompose(s: string, a: nat, b: nat)
    requires exists k :: 0 <= k < |s| && MatchAt(s, k)
    requires var r := IncrementSeat(s, a); |r| > 0 && IsUpperAscii(r[|r| - 1])
    ensures IncrementSeat(IncrementSeat(s, a), b) == IncrementSeat(s, a + b)
  {
    var i := FirstMatch(s, 0).value;
    var j := RunEnd(s, i);
    var digits := s[i..j];
    assert IsDecimal(digits);
    assert IncrementSeat(s, a) == digits + [Shift(s[j], a)];
    SeatCodeIncrement(digits, Shift(s[j], a), b);
    ShiftCompose(s[j], a, b);
  }

  // ---------------------------------------------------------------------------
  // Filters over the passenger list.
  // ---------------------------------------------------------------------------

  /** The tests the handlers filter the passenger list with. */
  datatype Criterion =
    | PnrCommand(pnr: string)            // `p.pnr.toUpperCase().includes(pnr)`
    | TextSearch(query: string)          // name or PNR (lower-cased) or ticket (raw) contains the query
    | Selected(ids: set<int>)            // `selectedIds.has(p.id)`
    | BookingGroup(pnr: string, ids: set<int>)  // `p.pnr === pnr && selectedIds.has(p.id)`

  predicate Meets(p: Pax, c: Criterion)
  {
    match c
    case PnrCommand(pnr) => Contains(ToUpper(p.pnr), pnr)
    case TextSearch(query) =>
      var lower := ToLower(query);
      Contains(ToLower(p.name), lower) || Contains(p.ticket, query) || Contains(ToLower(p.pnr), lower)
    case Selected(ids) => p.id in ids
    case BookingGroup(pnr, ids) => p.pnr == pnr && p.id in ids
  }

  /** `passengers.filter(...)` */
  function Filter(ps: seq<Pax>, c: Criterion): (r: seq<Pax>)
    ensures |r| <= |ps|
  {
    if ps == [] then [] else Filter(ps[..|ps| - 1], c) + (if Meets(ps[|ps| - 1], c) then [ps[|ps| - 1]] else [])
  }

  /** A filter keeps exactly the passengers that meet the test. */
  lemma {:induction false} FilterMembers(ps: seq<Pax>, c: Criterion)
    ensures forall p :: p in Filter(ps, c) <==> p in ps && Meets(p, c)
  {
    if ps != [] {
      FilterMembers(ps[..|ps| - 1], c);
      assert ps == ps[..|ps| - 1] + [ps[|ps| - 1]];
    }
  }

  function Ids(ps: seq<Pax>): (r: seq<int>)
    ensures |r| == |ps| && forall i :: 0 <= i < |ps| ==> r[i] == ps[i].id
  {
    seq(|ps|, i requires 0 <= i < |ps| => ps[i].id)
  }

  /** A filter keeps list order, so ids that were distinct stay distinct. */
  lemma {:induction false} FilterDistinct(ps: seq<Pax>, c: Criterion)
    requires NoDup(Ids(ps))
    ensures NoDup(Ids(Filter(ps, c)))
  {
    if ps != [] {
      var init, last := ps[..|ps| - 1], ps[|ps| - 1];
      assert Ids(init) == Ids(ps)[..|ps| - 1];
      FilterDistinct(init, c);
      FilterMembers(init, c);
      var f := Filter(init, c);
      if Meets(last, c) {
        forall i | 0 <= i < |f| ensures f[i].id != last.id {
          assert f[i] in init;
          var k :| 0 <= k < |init| && init[k] == f[i];
          assert Ids(ps)[k] != Ids(ps)[|ps| - 1];
        }
      }
    }
  }

  /** The ids of a list, as a set. */
  function IdSet(ps: seq<Pax>): (s: set<int>)
    ensures forall id :: id in s <==> exists p :: p in ps && p.id == id
  {
    set p | p in ps :: p.id
  }

  /** `matches.forEach(p => newSet.add(p.id))`, starting from `init`. */
  method CollectIds(ps: seq<Pax>, init: set<int>) returns (ids: set<int>)
    ensures ids == init + IdSet(ps)
  {
    ids := init;
    for i := 0 to |ps|
      invariant ids == init + IdSet(ps[..i])
    {
      assert ps[..i + 1] == ps[..i] + [ps[i]];
      ids := ids + {ps[i].id};
    }
    assert ps[..|ps|] == ps;
  }

  // ---------------------------------------------------------------------------
  // Panel state: per-passenger inputs and per-PNR split switches.
  // ---------------------------------------------------------------------------

  /** The panel inputs of one passenger, field name to value. */
  type Entry = map<string, string>

  /** `{ ...prev[id] }`: a passenger's inputs, or none yet. */
  function EntryOf(inputs: map<int, Entry>, id: int): Entry
  {
    if id in inputs then inputs[id] else map[]
  }

  /** `prev[pnr]` read as a flag: an absent PNR is not split. */
  predicate SplitOn(splitMode: map<string, bool>, pnr: string)
  {
    pnr in splitMode && splitMode[pnr]
  }

  /** `{ ...prev, [pnr]: !prev[pnr] }` */
  function ToggledSplit(splitMode: map<string, bool>, pnr: string): (r: map<string, bool>)
    ensures SplitOn(r, pnr) == !SplitOn(splitMode, pnr)
    ensures forall q :: q != pnr ==> (q in r <==> q in splitMode) && (q in splitMode ==> r[q] == splitMode[q])
  {
    splitMode[pnr := !SplitOn(splitMode, pnr)]
  }

  /** Toggling twice leaves every PNR's switch where it was. */
  lemma ToggleSplitTwice(splitMode: map<string, bool>, pnr: string)
    ensures forall q :: SplitOn(ToggledSplit(ToggledSplit(splitMode, pnr), pnr), q) == SplitOn(splitMode, q)
  {
    var once := ToggledSplit(splitMode, pnr);
    var twice := ToggledSplit(once, pnr);
    forall q ensures SplitOn(twice, q) == SplitOn(splitMode, q) {
      if q != pnr {
        assert SplitOn(twice, q) == SplitOn(once, q);
      }
    }
  }

  /** toggleSelection's new set: the id's membership flips, nothing else moves. */
  function Flipped(ids: set<int>, id: int): (r: set<int>)
    ensures id in r <==> id !in ids
    ensures r - {id} == ids - {id}
  {
    if id in ids then ids - {id} else ids + {id}
  }

  lemma FlipTwice(ids: set<int>, id: int)
    ensures Flipped(Flipped(ids, id), id) == ids
  {
    var once := Flipped(ids, id);
    var twice := Flipped(once, id);
    assert id in twice <==> id in ids;
    assert twice - {id} == ids - {id};
    assert forall x :: x in twice <==> x in ids;
  }

  // ---------------------------------------------------------------------------
  // autoAssignSeats: the booking's selected passengers, in list order, get the
  // start seat, then the start seat advanced by 1, 2, ...
  // ---------------------------------------------------------------------------

  /** `inputs[first.id]?.seat || first.seat || ''` */
  function StartSeat(inputs: map<int, Entry>, first: Pax): string
  {
    var e := EntryOf(inputs, first.id);
    if "seat" in e && e["seat"] != "" then e["seat"] else first.seat
  }

  /** `index === 0 ? startSeat : incrementSeat(startSeat, index)` */
  function SeatFor(start: string, index: nat): string
  {
    if index == 0 then start else IncrementSeat(start, index)
  }

  /** The seats handed out to a group of `count` from `start`, in order. */
  function SeatsFrom(start: string, count: nat): (r: seq<string>)
    ensures |r| == count && forall k :: 0 <= k < count ==> r[k] == SeatFor(start, k)
  {
    seq(count, k requires 0 <= k < count => SeatFor(start, k))
  }

  /** The inputs after the first n members of the group have their seat set,
      member k to seats[k]. */
  function Assigned(inputs: map<int, Entry>, group: seq<Pax>, seats: seq<string>, n: nat): map<int, Entry>
    requires n <= |group| && n <= |seats|
  {
    if n == 0 then inputs
    else
      var prev := Assigned(inputs, group, seats, n - 1);
      var id := group[n - 1].id;
      prev[id := EntryOf(prev, id)["seat" := seats[n - 1]]]
  }

  /** The whole of autoAssignSeats on the inputs. */
  function AutoAssigned(inputs: map<int, Entry>, ps: seq<Pax>, selected: set<int>, pnr: string): map<int, Entry>
  {
    var group := Filter(ps, BookingGroup(pnr, selected));
    if group == [] then inputs
    else
      var start := StartSeat(inputs, group[0]);
      if start == "" then inputs else Assigned(inputs, group, SeatsFrom(start, |group|), |group|)
  }

  /** With distinct ids, the k-th member of the group gets seats[k] and keeps
      its other inputs; every other passenger's inputs are untouched. */
  lemma {:induction false} AssignedSpec(inputs: map<int, Entry>, group: seq<Pax>, seats: seq<string>, n: nat)
    requires n <= |group| && n <= |seats| && NoDup(Ids(group))
    ensures forall k :: 0 <= k < n ==>
      group[k].id in Assigned(inputs, group, seats, n)
      && Assigned(inputs, group, seats, n)[group[k].id] == EntryOf(inputs, group[k].id)["seat" := seats[k]]
    ensures forall id :: id !in Ids(group[..n]) ==>
      (id in Assigned(inputs, group, seats, n) <==> id in inputs)
      && (id in inputs ==> Assigned(inputs, group, seats, n)[id] == inputs[id])
  {
    AssignedOthers(inputs, group, seats, n);
    if n > 0 {
      AssignedSpec(inputs, group, seats, n - 1);
      var prev, last := Assigned(inputs, group, seats, n - 1), group[n - 1].id;
      assert last !in Ids(group[..n - 1]) by {
        forall k | 0 <= k < n - 1 ensures Ids(group)[k] != Ids(group)[n - 1] { }
      }
      AssignedOthers(inputs, group, seats, n - 1);
      var next := Assigned(inputs, group, seats, n);
      assert next == prev[last := EntryOf(prev, last)["seat" := seats[n - 1]]];
      forall k | 0 <= k < n
        ensures group[k].id in next && next[group[k].id] == EntryOf(inputs, group[k].id)["seat" := seats[k]]
      {
        if k < n - 1 {
          assert Ids(group)[k] != Ids(group)[n - 1];
          assert next[group[k].id] == prev[group[k].id];
        } else {
          assert EntryOf(prev, last) == EntryOf(inputs, last);
        }
      }
    }
  }

  /** Passengers outside the first n members keep their inputs. */
  lemma {:induction false} AssignedOthers(inputs: map<int, Entry>, group: seq<Pax>, seats: seq<string>, n: nat)
    requires n <= |group| && n <= |seats|
    ensures forall id :: id !in Ids(group[..n]) ==>
      (id in Assigned(inputs, group, seats, n) <==> id in inputs)
      && (id in inputs ==> Assigned(inputs, group, seats, n)[id] == inputs[id])
  {
    if n > 0 {
      AssignedOthers(inputs, group, seats, n - 1);
      assert Ids(group[..n]) == Ids(group[..n - 1]) + [group[n - 1].id];
    }
  }

  /** autoAssignSeats, stated on the passenger list: when the booking has
      selected passengers and a start seat, the k-th of them (in list order)
      gets SeatFor(start, k); nobody else's inputs change; otherwise nothing
      changes. */
  lemma AutoAssignSpec(inputs: map<int, Entry>, ps: seq<Pax>, selected: set<int>, pnr: string)
    requires NoDup(Ids(ps))
    ensures var group := Filter(ps, BookingGroup(pnr, selected));
      && (group == [] || StartSeat(inputs, group[0]) == "" ==> AutoAssigned(inputs, ps, selected, pnr) == inputs)
      && (group != [] && StartSeat(inputs, group[0]) != "" ==>
            forall k :: 0 <= k < |group| ==>
              group[k].id in AutoAssigned(inputs, ps, selected, pnr) &&
              AutoAssigned(inputs, ps, selected, pnr)[group[k].id]
                == EntryOf(inputs, group[k].id)["seat" := SeatFor(StartSeat(inputs, group[0]), k)])
    ensures forall id :: id !in IdSet(Filter(ps, BookingGroup(pnr, selected))) ==>
      (id in AutoAssigned(inputs, ps, selected, pnr) <==> id in inputs)
      && (id in inputs ==> AutoAssigned(inputs, ps, selected, pnr)[id] == inputs[id])
  {
    AutoAssignGroupSeats(inputs, ps, selected, pnr);
    AutoAssignOthersKept(inputs, ps, selected, pnr);
  }

  /** The k-th selected passenger of the booking gets the start seat advanced
      k times; without a group or a start seat nothing changes. */
  lemma AutoAssignGroupSeats(inputs: map<int, Entry>, ps: seq<Pax>, selected: set<int>, pnr: string)
    requires NoDup(Ids(ps))
    ensures var group := Filter(ps, BookingGroup(pnr, selected));
      && (group == [] || StartSeat(inputs, group[0]) == "" ==> AutoAssigned(inputs, ps, selected, pnr) == inputs)
      && (group != [] && StartSeat(inputs, group[0]) != "" ==>
            forall k :: 0 <= k < |group| ==>
              group[k].id in AutoAssigned(inputs, ps, selected, pnr) &&
              AutoAssigned(inputs, ps, selected, pnr)[group[k].id]
                == EntryOf(inputs, group[k].id)["seat" := SeatFor(StartSeat(inputs, group[0]), k)])
  {
    var group := Filter(ps, BookingGroup(pnr, selected));
    FilterDistinct(ps, BookingGroup(pnr, selected));
    if group != [] && StartSeat(inputs, group[0]) != "" {
      AssignedSpec(inputs, group, SeatsFrom(StartSeat(inputs, group[0]), |group|), |group|);
      assert group[..|group|] == group;
    }
  }

  /** Nobody outside the group has their inputs changed. */
  lemma AutoAssignOthersKept(inputs: map<int, Entry>, ps: seq<Pax>, selected: set<int>, pnr: string)
    ensures forall id :: id !in IdSet(Filter(ps, BookingGroup(pnr, selected))) ==>
      (id in AutoAssigned(inputs, ps, selected, pnr) <==> id in inputs)
      && (id in inputs ==> AutoAssigned(inputs, ps, selected, pnr)[id] == inputs[id])
  {
    var group := Filter(ps, BookingGroup(pnr, selected));
    if group != [] && StartSeat(inputs, group[0]) != "" {
      AssignedOthers(inputs, group, SeatsFrom(StartSeat(inputs, group[0]), |group|), |group|);
      assert group[..|group|] == group;
      forall id | id !in IdSet(group) ensures id !in Ids(group) { }
    }
  }

  /** Only passengers of that booking who are selected are assigned a seat. */
  lemma AutoAssignOnlyGroup(inputs: map<int, Entry>, ps: seq<Pax>, selected: set<int>, pnr: string, id: int)
    requires NoDup(Ids(ps))
    requires id !in selected || forall p :: p in ps && p.id == id ==> p.pnr != pnr
    ensures id in AutoAssigned(inputs, ps, selected, pnr) <==> id in inputs
    ensures id in inputs ==> AutoAssigned(inputs, ps, selected, pnr)[id] == inputs[id]
  {
    AutoAssignSpec(inputs, ps, selected, pnr);
    FilterMembers(ps, BookingGroup(pnr, selected));
  }

  // ---------------------------------------------------------------------------
  // getSelectedGroups: the selected passengers, grouped by PNR.
  // ---------------------------------------------------------------------------

  /** `groups[p.pnr].push(p)` for each passenger in turn, creating the group on
      first sight. */
  function Grouped(ps: seq<Pax>): (g: Dict<string, seq<Pax>>)
    ensures Dicts.Valid(g)
  {
    if ps == [] then Empty()
    else
      var g := Grouped(ps[..|ps| - 1]);
      var p := ps[|ps| - 1];
      Put(g, p.pnr, (if p.pnr in g.values then g.values[p.pnr] else []) + [p])
  }

  /** The passengers of one booking, in list order. */
  function OfPnr(ps: seq<Pax>, pnr: string): (r: seq<Pax>)
    ensures forall p :: p in r <==> p in ps && p.pnr == pnr
  {
    if ps == [] then []
    else
      assert ps == ps[..|ps| - 1] + [ps[|ps| - 1]];
      OfPnr(ps[..|ps| - 1], pnr) + (if ps[|ps| - 1].pnr == pnr then [ps[|ps| - 1]] else [])
  }

  function Pnrs(ps: seq<Pax>): (r: seq<string>)
    ensures |r| == |ps| && forall i :: 0 <= i < |ps| ==> r[i] == ps[i].pnr
  {
    seq(|ps|, i requires 0 <= i < |ps| => ps[i].pnr)
  }

  /** There is one group per PNR that occurs, and it holds exactly that
      booking's passengers in list order — so the groups partition the list. */
  lemma {:induction false} GroupedSpec(ps: seq<Pax>)
    ensures forall k :: k in Grouped(ps).values <==> k in Pnrs(ps)
    ensures forall k :: k in Grouped(ps).values ==> Grouped(ps).values[k] == OfPnr(ps, k)
  {
    GroupedKeys(ps);
    GroupedValues(ps);
  }

  /** The groups' keys are the PNRs that occur. */
  lemma {:induction false} GroupedKeys(ps: seq<Pax>)
    ensures forall k :: k in Grouped(ps).values <==> k in Pnrs(ps)
  {
    if ps != [] {
      var init := ps[..|ps| - 1];
      GroupedKeys(init);
      assert Pnrs(ps) == Pnrs(init) + [ps[|ps| - 1].pnr];
    }
  }

  /** Each group holds exactly its booking's passengers, in list order. */
  lemma {:induction false} GroupedValues(ps: seq<Pax>)
    ensures forall k :: k in Grouped(ps).values ==> Grouped(ps).values[k] == OfPnr(ps, k)
  {
    if ps != [] {
      var init, p := ps[..|ps| - 1], ps[|ps| - 1];
      GroupedValues(init);
      GroupedKeys(init);
      if OfPnr(init, p.pnr) != [] {
        OfPnrPresent(init, p.pnr, OfPnr(init, p.pnr)[0]);
      }
      forall k | k in Grouped(ps).values ensures Grouped(ps).values[k] == OfPnr(ps, k) {
        OfPnrLast(ps, k);
      }
    }
  }

  /** A booking with a passenger occurs in the list. */
  lemma OfPnrPresent(ps: seq<Pax>, pnr: string, q: Pax)
    requires q in OfPnr(ps, pnr)
    ensures pnr in Pnrs(ps)
  {
    var i :| 0 <= i < |ps| && ps[i] == q;
    assert Pnrs(ps)[i] == pnr;
  }

  /** OfPnr of a non-empty list, one step. */
  lemma OfPnrLast(ps: seq<Pax>, pnr: string)
    requires ps != []
    ensures OfPnr(ps, pnr) == OfPnr(ps[..|ps| - 1], pnr) + (if ps[|ps| - 1].pnr == pnr then [ps[|ps| - 1]] else [])
  {
  }

  /** getSelectedGroups, as the source builds it with a loop. */
  method GroupByPnr(selected: seq<Pax>) returns (groups: Dict<string, seq<Pax>>)
    ensures groups == Grouped(selected)
  {
    groups := Empty();
    for i := 0 to |selected|
      invariant groups == Grouped(selected[..i])
    {
      var p := selected[i];
      assert selected[..i + 1][..i] == selected[..i];
      var current := if p.pnr in groups.values then groups.values[p.pnr] else [];
      groups := Put(groups, p.pnr, current + [p]);
    }
    assert selected[..|selected|] == selected;
  }

  // ---------------------------------------------------------------------------
  // The passenger list component.
  // ---------------------------------------------------------------------------

  /** Is the trimmed query a PNR command, `P/...` in either case? */
  predicate IsPnrCommand(query: string)
  {
    StartsWith(ToUpper(query), "P/")
  }

  /** The forEach of autoAssignSeats: member `index` of the group gets seat
      SeatFor(start, index) in its inputs. */
  method AssignSeats(inputs: map<int, Entry>, group: seq<Pax>, start: string) returns (out: map<int, Entry>)
    ensures out == Assigned(inputs, group, SeatsFrom(start, |group|), |group|)
  {
    out := inputs;
    ghost var seats := SeatsFrom(start, |group|);
    for index := 0 to |group|
      invariant out == Assigned(inputs, group, seats, index)
    {
      var p := group[index];
      var seat := SeatFor(start, index);
      out := out[p.id := EntryOf(out, p.id)["seat" := seat]];
    }
  }

  class PassengerList {
    const passengers: seq<Pax>
    var displayedList: seq<Pax>
    var selectedIds: set<int>
    var searchQuery: string
    var pnrFilter: Option<string>
    var inputs: map<int, Entry>
    var splitMode: map<string, bool>

    constructor (initial: seq<Pax>)
      ensures passengers == initial && displayedList == initial
      ensures selectedIds == {} && searchQuery == "" && pnrFilter == None
      ensures inputs == map[] && splitMode == map[]
    {
      passengers := initial;
      displayedList := initial;
      selectedIds := {};
      searchQuery := "";
      pnrFilter := None;
      inputs := map[];
      splitMode := map[];
    }

    /** The search box's onChange. */
    method SetSearchQuery(q: string)
      modifies this
      ensures searchQuery == q
      ensures displayedList == old(displayedList) && selectedIds == old(selectedIds) && pnrFilter == old(pnrFilter)
      ensures inputs == old(inputs) && splitMode == old(splitMode)
    {
      searchQuery := q;
    }

    /** handleSearch. A blank query changes nothing. A PNR command shows and
      selects exactly the passengers whose PNR contains it and records it as
      the PNR filter. Any other query shows the passengers whose name, ticket
      or PNR contains it and adds them to the selection. Both clear the box. */
    method HandleSearch()
      modifies this`displayedList, this`selectedIds, this`pnrFilter, this`searchQuery
      ensures Trim(old(searchQuery)) == [] ==>
        displayedList == old(displayedList) && selectedIds == old(selectedIds)
        && pnrFilter == old(pnrFilter) && searchQuery == old(searchQuery)
      ensures var query := Trim(old(searchQuery));
        query != [] && IsPnrCommand(query) ==>
          var pnr := ToUpper(query[2..]);
          && displayedList == Filter(passengers, PnrCommand(pnr))
          && selectedIds == IdSet(displayedList)
          && pnrFilter == Some(pnr) && searchQuery == ""
      ensures var query := Trim(old(searchQuery));
        query != [] && !IsPnrCommand(query) ==>
          && displayedList == Filter(passengers, TextSearch(query))
          && selectedIds == old(selectedIds) + IdSet(displayedList)
          && pnrFilter == old(pnrFilter) && searchQuery == ""
    {
      var query := Trim(searchQuery);
      if query == [] {
        return;
      }
      if IsPnrCommand(query) {
        var pnr := ToUpper(query[2..]);
        var matches := Filter(passengers, PnrCommand(pnr));
        displayedList := matches;
        var newSet := CollectIds(matches, {});
        selectedIds := newSet;
        pnrFilter := Some(pnr);
      } else {
        var matches := Filter(passengers, TextSearch(query));
        displayedList := matches;
        var newSet := CollectIds(matches, selectedIds);
        selectedIds := newSet;
      }
      searchQuery := "";
    }

    /** toggleSelection */
    method ToggleSelection(id: int)
      modifies this
      ensures selectedIds == Flipped(old(selectedIds), id)
      ensures displayedList == old(displayedList) && searchQuery == old(searchQuery) && pnrFilter == old(pnrFilter)
      ensures inputs == old(inputs) && splitMode == old(splitMode)
    {
      if id in selectedIds {
        selectedIds := selectedIds - {id};
      } else {
        selectedIds := selectedIds + {id};
      }
    }

    /** clearFilters: the full list, no selection, no PNR tag, no panel state. */
    method ClearFilters()
      modifies this
      ensures displayedList == passengers && selectedIds == {} && pnrFilter == None
      ensures splitMode == map[] && inputs == map[] && searchQuery == old(searchQuery)
    {
      displayedList := passengers;
      selectedIds := {};
      pnrFilter := None;
      splitMode := map[];
      inputs := map[];
    }

    /** handleInputChange: one field of one passenger's inputs. */
    method InputChange(id: int, field: string, value: string)
      modifies this
      ensures inputs == old(inputs)[id := EntryOf(old(inputs), id)[field := value]]
      ensures displayedList == old(displayedList) && selectedIds == old(selectedIds) && searchQuery == old(searchQuery)
      ensures pnrFilter == old(pnrFilter) && splitMode == old(splitMode)
    {
      inputs := inputs[id := EntryOf(inputs, id)[field := value]];
    }

    /** autoAssignSeats */
    method AutoAssignSeats(pnr: string)
      modifies this`inputs
      ensures inputs == AutoAssigned(old(inputs), passengers, selectedIds, pnr)
    {
      var pnrGroup := Filter(passengers, BookingGroup(pnr, selectedIds));
      if pnrGroup == [] {
        return;
      }
      var startSeat := StartSeat(inputs, pnrGroup[0]);
      if startSeat == "" {
        return;
      }
      var newInputs := AssignSeats(inputs, pnrGroup, startSeat);
      inputs := newInputs;
    }

    /** toggleSplit */
    method ToggleSplit(pnr: string)
      modifies this
      ensures splitMode == ToggledSplit(old(splitMode), pnr)
      ensures displayedList == old(displayedList) && selectedIds == old(selectedIds) && searchQuery == old(searchQuery)
      ensures pnrFilter == old(pnrFilter) && inputs == old(inputs)
    {
      splitMode := splitMode[pnr := !SplitOn(splitMode, pnr)];
    }

    /** getSelectedGroups: the selected passengers, in list order, grouped by
      PNR. */
    method GetSelectedGroups() returns (groups: Dict<string, seq<Pax>>)
      ensures groups == Grouped(Filter(passengers, Selected(selectedIds)))
    {
      var selected := Filter(passengers, Selected(selectedIds));
      groups := GroupByPnr(selected);
    }
  }

  /** The groups hold exactly the selected passengers: a PNR has a group iff
      one of its passengers is selected, and the group lists that booking's
      selected passengers in list order. */
  lemma SelectedGroupsSpec(ps: seq<Pax>, ids: set<int>, pnr: string)
    ensures var g := Grouped(Filter(ps, Selected(ids)));
      && (pnr in g.values <==> exists p :: p in ps && p.id in ids && p.pnr == pnr)
      && (pnr in g.values ==> forall p :: p in g.values[pnr] <==> p in ps && p.id in ids && p.pnr == pnr)
  {
    var sel := Filter(ps, Selected(ids));
    GroupedSpec(sel);
    FilterMembers(ps, Selected(ids));
    if exists p :: p in ps && p.id in ids && p.pnr == pnr {
      var p :| p in ps && p.id in ids && p.pnr == pnr;
      assert p in sel;
      var i :| 0 <= i < |sel| && sel[i] == p;
      assert Pnrs(sel)[i] == pnr;
    }
    if pnr in Grouped(sel).values {
      var i :| 0 <= i < |sel| && Pnrs(sel)[i] == pnr;
      assert sel[i] in sel;
    }
  }
}
