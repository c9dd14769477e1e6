// The seatmap builder's two derived figures: the number of seats per cabin
// class (an object filled in a loop over every cabin map's cells) and the
// total number of seats.

module SeatCounts {
  import opened Wrappers
  import opened Dicts
  import opened Grid

  /** `Object.values(cabinMaps)`: the maps in key order. */
  function MapsInOrder(d: Dict<string, CabinMap>): (ms: seq<CabinMap>)
    requires Dicts.Valid(d)
    ensures |ms| == |d.keys|
    ensures forall i :: 0 <= i < |d.keys| ==> ms[i] == d.values[d.keys[i]]
  {
    seq(|d.keys|, i requires 0 <= i < |d.keys| => d.values[d.keys[i]])
  }

  /** `seatmap.cabins[idx]?.name || 'Cabin'`: the name of the cabin at the same
      position as the map, whatever that cabin's id. */
  function FallbackName(cabins: seq<Cabin>, idx: nat): string
  {
    if idx < |cabins| && cabins[idx].name != "" then cabins[idx].name else "Cabin"
  }

  /** `cell.cabin || cabinName` */
  function Bucket(c: Cell, fallback: string): string
  {
    if c.cabin != "" then c.cabin else fallback
  }

  /** The class each seat of a row is counted under, in cell order. */
  function RowBuckets(row: seq<Cell>, fallback: string): (bs: seq<string>)
    ensures |bs| == RowSeats(row)
  {
    if row == [] then []
    else
      var last := row[|row| - 1];
      RowBuckets(row[..|row| - 1], fallback) + (if last.kind == Seat then [Bucket(last, fallback)] else [])
  }

  function GridBuckets(grid: seq<seq<Cell>>, fallback: string): (bs: seq<string>)
    ensures |bs| == GridSeats(grid)
  {
    if grid == [] then [] else GridBuckets(grid[..|grid| - 1], fallback) + RowBuckets(grid[|grid| - 1], fallback)
  }

  /** The class of every seat of every map, in the order the count visits them. */
  function SeatBuckets(maps: seq<CabinMap>, cabins: seq<Cabin>): (bs: seq<string>)
  {
    if maps == [] then []
    else SeatBuckets(maps[..|maps| - 1], cabins) + GridBuckets(maps[|maps| - 1].grid, FallbackName(cabins, |maps| - 1))
  }

  /** The seat total over a list of maps. */
  function SeatsIn(maps: seq<CabinMap>): nat
  {
    if maps == [] then 0 else SeatsIn(maps[..|maps| - 1]) + GridSeats(maps[|maps| - 1].grid)
  }

  /** `counts[b] = (counts[b] || 0) + 1` */
  function Counted(d: Dict<string, nat>, b: string): Dict<string, nat>
  {
    Put(d, b, if b in d.values then d.values[b] + 1 else 1)
  }

  /** Counting each bucket in turn. */
  function Tally(bs: seq<string>): (d: Dict<string, nat>)
    ensures Dicts.Valid(d)
  {
    if bs == [] then Empty() else Counted(Tally(bs[..|bs| - 1]), bs[|bs| - 1])
  }

  /** Counting one more bucket. */
  lemma TallySnoc(bs: seq<string>, b: string)
    ensures Tally(bs + [b]) == Counted(Tally(bs), b)
  {
    assert (bs + [b])[..|bs|] == bs;
  }

  lemma RowBucketsSnoc(row: seq<Cell>, c: nat, fallback: string)
    requires c < |row|
    ensures RowBuckets(row[..c + 1], fallback)
      == RowBuckets(row[..c], fallback) + (if row[c].kind == Seat then [Bucket(row[c], fallback)] else [])
  {
    assert row[..c + 1][..c] == row[..c];
  }

  lemma GridBucketsSnoc(grid: seq<seq<Cell>>, r: nat, fallback: string)
    requires r < |grid|
    ensures GridBuckets(grid[..r + 1], fallback) == GridBuckets(grid[..r], fallback) + RowBuckets(grid[r], fallback)
  {
    assert grid[..r + 1][..r] == grid[..r];
  }

  /** One more cell of a row, counted after the buckets `before`. */
  lemma RowStep(before: seq<string>, row: seq<Cell>, c: nat, fallback: string)
    requires c < |row|
    ensures var t := Tally(before + RowBuckets(row[..c], fallback));
      Tally(before + RowBuckets(row[..c + 1], fallback)) == if row[c].kind == Seat then Counted(t, Bucket(row[c], fallback)) else t
  {
    RowBucketsSnoc(row, c, fallback);
    var acc := before + RowBuckets(row[..c], fallback);
    if row[c].kind == Seat {
      var b := Bucket(row[c], fallback);
      assert before + RowBuckets(row[..c + 1], fallback) == acc + [b];
      TallySnoc(acc, b);
    } else {
      assert before + RowBuckets(row[..c + 1], fallback) == acc;
    }
  }

  /** One more row of a grid, after the buckets `before`. */
  lemma GridStep(before: seq<string>, grid: seq<seq<Cell>>, r: nat, fallback: string)
    requires r < |grid|
    ensures before + GridBuckets(grid[..r + 1], fallback) == (before + GridBuckets(grid[..r], fallback)) + RowBuckets(grid[r], fallback)
  {
    GridBucketsSnoc(grid, r, fallback);
  }

  lemma SeatBucketsSnoc(maps: seq<CabinMap>, cabins: seq<Cabin>, k: nat)
    requires k < |maps|
    ensures SeatBuckets(maps[..k + 1], cabins) == SeatBuckets(maps[..k], cabins) + GridBuckets(maps[k].grid, FallbackName(cabins, k))
  {
    assert maps[..k + 1][..k] == maps[..k];
  }

  /** The sum of an object's values, in key order. */
  function SumOver(keys: seq<string>, values: map<string, nat>): nat
    requires forall k :: k in keys ==> k in values
  {
    if keys == [] then 0 else SumOver(keys[..|keys| - 1], values) + values[keys[|keys| - 1]]
  }

  function Total(d: Dict<string, nat>): nat
    requires Dicts.Valid(d)
  {
    SumOver(d.keys, d.values)
  }

  /** Exactly the classes that occur are counted, each as often as it occurs. */
  lemma {:induction false} TallyCounts(bs: seq<string>)
    ensures forall k :: k in Tally(bs).values <==> k in bs
    ensures forall k :: k in Tally(bs).values ==> Tally(bs).values[k] == multiset(bs)[k]
  {
    if bs != [] {
      TallyCounts(bs[..|bs| - 1]);
      assert bs == bs[..|bs| - 1] + [bs[|bs| - 1]];
      assert multiset(bs) == multiset(bs[..|bs| - 1]) + multiset{bs[|bs| - 1]};
    }
  }

  lemma {:induction false} SumOverIgnores(keys: seq<string>, values: map<string, nat>, k: string, v: nat)
    requires forall x :: x in keys ==> x in values
    requires k !in keys
    ensures SumOver(keys, values[k := v]) == SumOver(keys, values)
  {
    if keys != [] {
      SumOverIgnores(keys[..|keys| - 1], values, k, v);
    }
  }

  lemma {:induction false} SumOverBump(keys: seq<string>, values: map<string, nat>, k: string)
    requires forall x :: x in keys ==> x in values
    requires NoDup(keys) && k in keys
    ensures SumOver(keys, values[k := values[k] + 1]) == SumOver(keys, values) + 1
  {
    var init, last := keys[..|keys| - 1], keys[|keys| - 1];
    assert keys == init + [last];
    assert NoDup(init);
    if last == k {
      assert k !in init;
      SumOverIgnores(init, values, k, values[k] + 1);
    } else {
      assert k in init;
      SumOverBump(init, values, k);
    }
  }

  /** The counts add up to the number of buckets counted. */
  lemma {:induction false} TallyTotal(bs: seq<string>)
    ensures Total(Tally(bs)) == |bs|
  {
    if bs != [] {
      var d := Tally(bs[..|bs| - 1]);
      var b := bs[|bs| - 1];
      TallyTotal(bs[..|bs| - 1]);
      var t := Tally(bs);
      assert t == Counted(d, b);
      assert Total(t) == SumOver(t.keys, t.values);
      if b in d.values {
        assert t.keys == d.keys && t.values == d.values[b := d.values[b] + 1];
        SumOverBump(d.keys, d.values, b);
      } else {
        assert t.keys == d.keys + [b] && t.values == d.values[b := 1];
        SumOverAppend(d.keys, d.values, b, 1);
      }
    }
  }

  /** A new key appended with value v adds v to the sum. */
  lemma SumOverAppend(keys: seq<string>, values: map<string, nat>, k: string, v: nat)
    requires forall x :: x in keys ==> x in values
    requires k !in keys
    ensures SumOver(keys + [k], values[k := v]) == SumOver(keys, values) + v
  {
    assert (keys + [k])[..|keys|] == keys;
    SumOverIgnores(keys, values, k, v);
  }

  /** One bucket per seat. */
  lemma {:induction false} SeatBucketsCount(maps: seq<CabinMap>, cabins: seq<Cabin>)
    ensures |SeatBuckets(maps, cabins)| == SeatsIn(maps)
  {
    if maps != [] {
      SeatBucketsCount(maps[..|maps| - 1], cabins);
    }
  }

  /** The per-class counts add up to the seat total. */
  lemma CountsMatchTotal(maps: seq<CabinMap>, cabins: seq<Cabin>)
    ensures Total(Tally(SeatBuckets(maps, cabins))) == SeatsIn(maps)
  {
    TallyTotal(SeatBuckets(maps, cabins));
    SeatBucketsCount(maps, cabins);
  }

  predicate CabinsNamed(maps: seq<CabinMap>)
  {
    forall m, row, c :: m in maps && row in m.grid && c in row ==> c.cabin != ""
  }

  lemma {:induction false} RowBucketsNamed(row: seq<Cell>, f1: string, f2: string)
    requires forall c :: c in row ==> c.cabin != ""
    ensures RowBuckets(row, f1) == RowBuckets(row, f2)
  {
    if row != [] {
      RowBucketsNamed(row[..|row| - 1], f1, f2);
    }
  }

  lemma {:induction false} GridBucketsNamed(grid: seq<seq<Cell>>, f1: string, f2: string)
    requires forall row, c :: row in grid && c in row ==> c.cabin != ""
    ensures GridBuckets(grid, f1) == GridBuckets(grid, f2)
  {
    if grid != [] {
      GridBucketsNamed(grid[..|grid| - 1], f1, f2);
      RowBucketsNamed(grid[|grid| - 1], f1, f2);
    }
  }

  /** A seat is counted under the cabin name its cell recorded when it was
      generated: as long as every cell carries one, renaming or reordering the
      cabin records changes no count. */
  lemma {:induction false} CountsIgnoreCabinRecords(maps: seq<CabinMap>, c1: seq<Cabin>, c2: seq<Cabin>)
    requires CabinsNamed(maps)
    ensures SeatBuckets(maps, c1) == SeatBuckets(maps, c2)
  {
    if maps != [] {
      var last := maps[|maps| - 1];
      assert CabinsNamed(maps[..|maps| - 1]);
      GridBucketsNamed(last.grid, FallbackName(c1, |maps| - 1), FallbackName(c2, |maps| - 1));
      CountsIgnoreCabinRecords(maps[..|maps| - 1], c1, c2);
    }
  }
}
