// Boarding control: the passenger list with its boarding statuses, the
// selection of passengers (by sequence number), the status counts and the
// status-and-search filter of the list.

module Boarding {
  import opened Text
  import opened Dicts

  datatype Status = Ready | Boarded | Hold | Issue

  datatype Passenger = Passenger(seqNo: string, name: string, seat: string, bags: nat, group: string, status: Status)

  /** The status tabs above the list: every passenger, or one status. */
  datatype StatusFilter = All | Only(status: Status)

  /** The passengers in a given status. */
  function CountStatus(ps: seq<Passenger>, s: Status): (n: nat)
    ensures n <= |ps|
  {
    if ps == [] then 0 else CountStatus(ps[..|ps| - 1], s) + (if ps[|ps| - 1].status == s then 1 else 0)
  }

  datatype Totals = Totals(boarded: nat, ready: nat, hold: nat, issues: nat, total: nat)

  /** totals */
  function TotalsOf(ps: seq<Passenger>): (t: Totals)
    ensures t.total == |ps|
  {
    Totals(CountStatus(ps, Boarded), CountStatus(ps, Ready), CountStatus(ps, Hold), CountStatus(ps, Issue), |ps|)
  }

  /** Every passenger is in exactly one of the four statuses, so the four
      counts add up to the list length. */
  lemma {:induction false} TotalsPartition(ps: seq<Passenger>)
    ensures var t := TotalsOf(ps); t.boarded + t.ready + t.hold + t.issues == t.total
  {
    if ps != [] {
      TotalsPartition(ps[..|ps| - 1]);
    }
  }

  /** The "Remaining" figure, `Math.max(total - boarded, 0)`. */
  function Remaining(t: Totals): nat
  {
    if t.total >= t.boarded then t.total - t.boarded else 0
  }

  /** Remaining counts exactly the passengers not yet boarded. */
  lemma RemainingNotBoarded(ps: seq<Passenger>)
    ensures var t := TotalsOf(ps); Remaining(t) == t.ready + t.hold + t.issues
  {
    TotalsPartition(ps);
  }

  /** A passenger passes the filter when the status tab is 'All' or its own
      status, and the trimmed, lower-cased search term is empty or occurs in
      the lower-cased name, sequence number or seat. */
  predicate Matches(p: Passenger, filter: StatusFilter, search: string)
  {
    var term := ToLower(Trim(search));
    && (filter == All || p.status == filter.status)
    && (term == [] || Contains(ToLower(p.name), term) || Contains(ToLower(p.seqNo), term) || Contains(ToLower(p.seat), term))
  }

  /** filtered */
  function Filtered(ps: seq<Passenger>, filter: StatusFilter, search: string): (r: seq<Passenger>)
    ensures |r| <= |ps|
  {
    if ps == [] then []
    else
      var last := ps[|ps| - 1];
      Filtered(ps[..|ps| - 1], filter, search) + (if Matches(last, filter, search) then [last] else [])
  }

  /** The filtered list holds exactly the passengers that match. */
  lemma {:induction false} FilteredMembers(ps: seq<Passenger>, filter: StatusFilter, search: string)
    ensures forall p :: p in Filtered(ps, filter, search) <==> p in ps && Matches(p, filter, search)
  {
    if ps != [] {
      FilteredMembers(ps[..|ps| - 1], filter, search);
      assert ps == ps[..|ps| - 1] + [ps[|ps| - 1]];
    }
  }

  /** Under the 'All' tab with an empty search the whole list is shown. */
  lemma {:induction false} FilteredAll(ps: seq<Passenger>, search: string)
    requires Trim(search) == []
    ensures Filtered(ps, All, search) == ps
  {
    if ps != [] {
      FilteredAll(ps[..|ps| - 1], search);
      assert ps == ps[..|ps| - 1] + [ps[|ps| - 1]];
    }
  }

  /** The sequence numbers of a list, in order: `list.map(p => p.seq)`. */
  function SeqNos(ps: seq<Passenger>): (r: seq<string>)
    ensures |r| == |ps| && forall i :: 0 <= i < |ps| ==> r[i] == ps[i].seqNo
  {
    seq(|ps|, i requires 0 <= i < |ps| => ps[i].seqNo)
  }

  /** Every passenger whose sequence number is among `targets` takes status
      `s`; nobody else changes, and the list keeps its length and order. */
  function Restatus(ps: seq<Passenger>, targets: seq<string>, s: Status): (r: seq<Passenger>)
    ensures |r| == |ps|
    ensures forall i :: 0 <= i < |ps| ==>
      r[i] == if ps[i].seqNo in targets then ps[i].(status := s) else ps[i]
  {
    seq(|ps|, i requires 0 <= i < |ps| => if ps[i].seqNo in targets then ps[i].(status := s) else ps[i])
  }

  /** Moving passengers into a status never lowers that status's count, and
      lowers no count it does not move passengers out of. */
  lemma {:induction false} RestatusCount(ps: seq<Passenger>, targets: seq<string>, s: Status)
    ensures CountStatus(Restatus(ps, targets, s), s) >= CountStatus(ps, s)
    ensures forall o :: o != s ==> CountStatus(Restatus(ps, targets, s), o) <= CountStatus(ps, o)
  {
    if ps != [] {
      var init := ps[..|ps| - 1];
      RestatusCount(init, targets, s);
      assert Restatus(ps, targets, s)[..|ps| - 1] == Restatus(init, targets, s);
    }
  }

  /** A status change never touches a sequence number. */
  lemma RestatusKeepsSeqNos(ps: seq<Passenger>, targets: seq<string>, s: Status)
    ensures SeqNos(Restatus(ps, targets, s)) == SeqNos(ps)
  {
  }

  /** `prev.includes(seq) ? prev.filter(id => id !== seq) : [...prev, seq]` */
  function Toggled(sel: seq<string>, seqNo: string): (r: seq<string>)
    ensures seqNo in r <==> seqNo !in sel
    ensures forall x :: x != seqNo ==> (x in r <==> x in sel)
    ensures NoDup(sel) ==> NoDup(r)
  {
    if seqNo in sel then Without(sel, seqNo)
    else
      assert forall i :: 0 <= i < |sel| ==> sel[i] != seqNo;
      sel + [seqNo]
  }

  /** Toggling the same passenger twice restores a selection that did not
      hold it, and in any case restores which passengers are selected. */
  lemma ToggleTwice(sel: seq<string>, seqNo: string)
    ensures seqNo !in sel ==> Toggled(Toggled(sel, seqNo), seqNo) == sel
    ensures forall x :: x in Toggled(Toggled(sel, seqNo), seqNo) <==> x in sel
  {
    if seqNo !in sel {
      WithoutLast(sel, seqNo);
    }
  }

  lemma {:induction false} WithoutLast(s: seq<string>, x: string)
    requires x !in s
    ensures Without(s + [x], x) == s
  {
    if s != [] {
      assert (s + [x])[1..] == s[1..] + [x];
      WithoutLast(s[1..], x);
      assert [s[0]] + s[1..] == s;
    } else {
      assert ([] + [x])[1..] == [];
    }
  }

  class BoardingControl {
    var passengers: seq<Passenger>
    var selected: seq<string>

    /** Sequence numbers identify passengers, and the selection never lists
      a passenger twice. */
    ghost predicate Valid()
      reads this
    {
      NoDup(SeqNos(passengers)) && NoDup(selected)
    }

    constructor (initial: seq<Passenger>)
      requires NoDup(SeqNos(initial))
      ensures Valid() && passengers == initial && selected == []
    {
      passengers := initial;
      selected := [];
    }

    /** totals, read from the current list. */
    function Totals(): (t: Totals)
      reads this
      ensures t.boarded + t.ready + t.hold + t.issues == t.total == |passengers|
    {
      TotalsPartition(passengers);
      TotalsOf(passengers)
    }

    /** toggleSelect */
    method ToggleSelect(seqNo: string)
      requires Valid()
      modifies this
      ensures Valid() && passengers == old(passengers)
      ensures selected == Toggled(old(selected), seqNo)
    {
      if seqNo in selected {
        selected := Without(selected, seqNo);
      } else {
        selected := selected + [seqNo];
      }
    }

    /** bulkBoard: with an empty selection nothing happens; otherwise every
      selected passenger is boarded and the selection is emptied. */
    method BulkBoard()
      requires Valid()
      modifies this
      ensures Valid()
      ensures old(selected) == [] ==> passengers == old(passengers) && selected == []
      ensures old(selected) != [] ==> passengers == Restatus(old(passengers), old(selected), Boarded) && selected == []
    {
      if |selected| == 0 {
        return;
      }
      RestatusKeepsSeqNos(passengers, selected, Boarded);
      passengers := Restatus(passengers, selected, Boarded);
      selected := [];
    }

    /** markHold: that passenger is put on hold; the selection stays. */
    method MarkHold(seqNo: string)
      requires Valid()
      modifies this
      ensures Valid() && selected == old(selected)
      ensures passengers == Restatus(old(passengers), [seqNo], Hold)
    {
      RestatusKeepsSeqNos(passengers, [seqNo], Hold);
      passengers := Restatus(passengers, [seqNo], Hold);
    }

    /** unboardOne: that passenger is back to Ready and leaves the selection. */
    method UnboardOne(seqNo: string)
      requires Valid()
      modifies this
      ensures Valid()
      ensures passengers == Restatus(old(passengers), [seqNo], Ready)
      ensures selected == Without(old(selected), seqNo)
    {
      RestatusKeepsSeqNos(passengers, [seqNo], Ready);
      passengers := Restatus(passengers, [seqNo], Ready);
      selected := Without(selected, seqNo);
    }

    /** boardOne: that passenger is boarded and leaves the selection. */
    method BoardOne(seqNo: string)
      requires Valid()
      modifies this
      ensures Valid()
      ensures passengers == Restatus(old(passengers), [seqNo], Boarded)
      ensures selected == Without(old(selected), seqNo)
    {
      RestatusKeepsSeqNos(passengers, [seqNo], Boarded);
      passengers := Restatus(passengers, [seqNo], Boarded);
      selected := Without(selected, seqNo);
    }

    /** The header checkbox: checked selects exactly the shown passengers,
      unchecked selects none. */
    method SelectAll(checked: bool, filter: StatusFilter, search: string)
      requires Valid()
      modifies this
      ensures Valid() && passengers == old(passengers)
      ensures selected == if checked then SeqNos(Filtered(passengers, filter, search)) else []
    {
      if checked {
        selected := SeqNos(Filtered(passengers, filter, search));
        FilteredDistinct(passengers, filter, search);
      } else {
        selected := [];
      }
    }
  }

  /** Filtering keeps passengers in list order, so distinct sequence numbers
      stay distinct. */
  lemma {:induction false} FilteredDistinct(ps: seq<Passenger>, filter: StatusFilter, search: string)
    requires NoDup(SeqNos(ps))
    ensures NoDup(SeqNos(Filtered(ps, filter, search)))
  {
    if ps != [] {
      var init, last := ps[..|ps| - 1], ps[|ps| - 1];
      assert SeqNos(init) == SeqNos(ps)[..|ps| - 1];
      NoDupInit(SeqNos(ps));
      FilteredDistinct(init, filter, search);
      var f := Filtered(init, filter, search);
      var shown := Matches(last, filter, search);
      assert Filtered(ps, filter, search) == f + (if shown then [last] else []);
      if shown {
        LastNotFiltered(ps, filter, search);
        SeqNosSnoc(f, last);
        NoDupSnoc(SeqNos(f), last.seqNo);
      }
    }
  }

  lemma SeqNosSnoc(ps: seq<Passenger>, p: Passenger)
    ensures SeqNos(ps + [p]) == SeqNos(ps) + [p.seqNo]
  {
    assert forall i :: 0 <= i < |ps| ==> (ps + [p])[i] == ps[i];
  }

  /** The last passenger's number is not among the earlier ones shown. */
  lemma LastNotFiltered(ps: seq<Passenger>, filter: StatusFilter, search: string)
    requires NoDup(SeqNos(ps)) && ps != []
    ensures ps[|ps| - 1].seqNo !in SeqNos(Filtered(ps[..|ps| - 1], filter, search))
  {
    var init, last := ps[..|ps| - 1], ps[|ps| - 1];
    var f := Filtered(init, filter, search);
    FilteredMembers(init, filter, search);
    forall i | 0 <= i < |f| ensures SeqNos(f)[i] != last.seqNo {
      assert f[i] in init;
      var k :| 0 <= k < |init| && init[k] == f[i];
      assert SeqNos(ps)[k] != SeqNos(ps)[|ps| - 1];
    }
  }
}
