// The seatmap builder's layout resolver: a layout string such as "3-3" or
// "1-2-1" and a column count become one role per column.

module Layout {
  import opened Wrappers
  import opened Text

  datatype Role = Seat | Aisle | Blocked

  /** `s.split(sep)`: the pieces between separators, empty pieces included. */
  function Split(s: string, sep: char): (parts: seq<string>)
    ensures |parts| >= 1
    ensures forall i :: 0 <= i < |parts| ==> sep !in parts[i]
  {
    if s == [] then [""]
    else if s[0] == sep then [""] + Split(s[1..], sep)
    else
      var rest := Split(s[1..], sep);
      [[s[0]] + rest[0]] + rest[1..]
  }

  /** `Number(g.trim())`, kept when it is a positive whole number. */
  function GroupSize(token: string): (n: Option<nat>)
    ensures n.Some? ==> n.value > 0
  {
    var t := Trim(token);
    if IsDecimal(t) && ParseNat(t) > 0 then Some(ParseNat(t)) else None
  }

  function GroupSizes(tokens: seq<string>): (gs: seq<nat>)
    ensures |gs| <= |tokens|
    ensures forall i :: 0 <= i < |gs| ==> gs[i] > 0
  {
    if tokens == [] then []
    else
      match GroupSize(tokens[0])
      case Some(n) => [n] + GroupSizes(tokens[1..])
      case None => GroupSizes(tokens[1..])
  }

  /** The positive seat groups of a layout string, in order. */
  function Groups(layout: string): (gs: seq<nat>)
    ensures forall i :: 0 <= i < |gs| ==> gs[i] > 0
  {
    GroupSizes(Split(layout, '-'))
  }

  function Sum(s: seq<nat>): nat
  {
    if s == [] then 0 else Sum(s[..|s| - 1]) + s[|s| - 1]
  }

  function Seats(n: nat): (r: seq<Role>)
    ensures |r| == n && forall i :: 0 <= i < n ==> r[i] == Seat
  {
    seq(n, _ => Seat)
  }

  /** What the pass over group `idx` pushes: its seats, then an aisle unless it is the last group. */
  function Chunk(gs: seq<nat>, idx: nat): seq<Role>
    requires idx < |gs|
  {
    Seats(gs[idx]) + (if idx < |gs| - 1 then [Aisle] else [])
  }

  /** The pattern after the first k groups have been pushed. */
  function EmitUpTo(gs: seq<nat>, k: nat): seq<Role>
    requires k <= |gs|
  {
    if k == 0 then [] else EmitUpTo(gs, k - 1) + Chunk(gs, k - 1)
  }

  function Emitted(gs: seq<nat>): seq<Role>
  {
    EmitUpTo(gs, |gs|)
  }

  /** Cut a pattern to `length`, or pad it on the right with 'blocked'. */
  function Fit(p: seq<Role>, length: nat): (r: seq<Role>)
    ensures |r| == length
    ensures forall i :: 0 <= i < length ==> r[i] == if i < |p| then p[i] else Blocked
  {
    if |p| >= length then p[..length] else p + seq(length - |p|, _ => Blocked)
  }

  /** layoutPattern(layout, length) */
  function Resolve(layout: string, length: nat): (r: seq<Role>)
    ensures |r| == length
  {
    var gs := Groups(layout);
    if gs == [] then Seats(length) else Fit(Emitted(gs), length)
  }

  /** The column of the aisle that follows group j. */
  function AislePos(gs: seq<nat>, j: nat): nat
    requires j < |gs|
  {
    Sum(gs[..j + 1]) + j
  }

  /** layoutPattern, as the source builds it: push each group's seats and the
      aisle after it, then cut to `length` or pad with 'blocked'. */
  method LayoutPattern(layout: string, length: nat) returns (pattern: seq<Role>)
    ensures pattern == Resolve(layout, length)
  {
    var groups := Groups(layout);
    if |groups| == 0 {
      return Seats(length);
    }
    pattern := [];
    for idx := 0 to |groups|
      invariant pattern == EmitUpTo(groups, idx)
    {
      pattern := PushSeats(pattern, groups[idx]);
      if idx < |groups| - 1 {
        pattern := pattern + [Aisle];
      }
    }
    if |pattern| >= length {
      return pattern[..length];
    }
    pattern := PadBlocked(pattern, length);
  }

  /** The inner loop of layoutPattern: push `n` seats. */
  method PushSeats(pattern: seq<Role>, n: nat) returns (out: seq<Role>)
    ensures out == pattern + Seats(n)
  {
    out := pattern;
    for i := 0 to n
      invariant out == pattern + Seats(i)
    {
      assert Seats(i + 1) == Seats(i) + [Seat];
      out := out + [Seat];
    }
  }

  /** The padding loop of layoutPattern: push 'blocked' up to `length` roles. */
  method PadBlocked(pattern: seq<Role>, length: nat) returns (out: seq<Role>)
    requires |pattern| < length
    ensures out == Fit(pattern, length)
  {
    out := pattern;
    while |out| < length
      invariant |pattern| <= |out| <= length
      invariant out == pattern + seq(|out| - |pattern|, _ => Blocked)
      decreases length - |out|
    {
      assert seq(|out| + 1 - |pattern|, _ => Blocked) == seq(|out| - |pattern|, _ => Blocked) + [Blocked];
      out := out + [Blocked];
    }
  }

  lemma {:induction false} SumPrefix(gs: seq<nat>, k: nat)
    requires k < |gs|
    ensures Sum(gs[..k + 1]) == Sum(gs[..k]) + gs[k]
  {
    assert gs[..k + 1][..k] == gs[..k];
  }

  lemma {:induction false} SumMonotone(gs: seq<nat>, j: nat, k: nat)
    requires j <= k <= |gs|
    ensures Sum(gs[..j]) <= Sum(gs[..k])
    decreases k - j
  {
    if j < k {
      SumPrefix(gs, j);
      SumMonotone(gs, j + 1, k);
    }
  }

  lemma {:induction false} EmitLength(gs: seq<nat>, k: nat)
    requires k <= |gs|
    ensures k < |gs| ==> |EmitUpTo(gs, k)| == Sum(gs[..k]) + k
    ensures 0 < k == |gs| ==> |EmitUpTo(gs, k)| == Sum(gs) + k - 1
  {
    if k > 0 {
      EmitLength(gs, k - 1);
      SumPrefix(gs, k - 1);
      assert gs[..|gs|] == gs;
    }
  }

  /** After k groups, a position holds an aisle exactly when it directly follows
      one of the groups pushed so far other than the last group of all; every
      other position holds a seat. */
  lemma {:induction false} EmitRoles(gs: seq<nat>, k: nat, p: nat)
    requires k <= |gs| && forall i :: 0 <= i < |gs| ==> gs[i] > 0
    requires p < |EmitUpTo(gs, k)|
    ensures EmitUpTo(gs, k)[p] != Blocked
    ensures EmitUpTo(gs, k)[p] == Aisle <==> exists j :: 0 <= j < k && j < |gs| - 1 && p == AislePos(gs, j)
  {
    var prev := EmitUpTo(gs, k - 1);
    EmitLength(gs, k - 1);
    if p < |prev| {
      EmitRoles(gs, k - 1, p);
      if p == AislePos(gs, k - 1) {
        SumPrefix(gs, k - 1);
      }
    } else {
      ChunkRole(gs, k, p);
    }
  }

  /** A position inside the k-th group's chunk: a seat, or the aisle that
      closes the chunk, which lies past every earlier aisle. */
  lemma ChunkRole(gs: seq<nat>, k: nat, p: nat)
    requires 0 < k <= |gs|
    requires |EmitUpTo(gs, k - 1)| == Sum(gs[..k - 1]) + k - 1
    requires |EmitUpTo(gs, k - 1)| <= p < |EmitUpTo(gs, k)|
    ensures EmitUpTo(gs, k)[p] != Blocked
    ensures EmitUpTo(gs, k)[p] == Aisle <==> exists j :: 0 <= j < k && j < |gs| - 1 && p == AislePos(gs, j)
  {
    var prev := EmitUpTo(gs, k - 1);
    SumPrefix(gs, k - 1);
    var chunk := Chunk(gs, k - 1);
    assert EmitUpTo(gs, k)[p] == chunk[p - |prev|];
    assert AislePos(gs, k - 1) == |prev| + gs[k - 1];
    forall j | 0 <= j < k - 1 ensures AislePos(gs, j) < |prev| {
      SumMonotone(gs, j + 1, k - 1);
    }
    if p - |prev| < gs[k - 1] {
      assert chunk[p - |prev|] == Seat;
    } else {
      assert chunk[p - |prev|] == Aisle;
    }
  }

  /** layoutPattern always yields `length` roles. Without a positive group they
      are all seats. Otherwise there is an aisle exactly after each group but
      the last, 'blocked' exactly on the padding beyond the emitted pattern, and
      seats everywhere else. */
  lemma ResolveRoles(layout: string, length: nat)
    ensures |Resolve(layout, length)| == length
    ensures Groups(layout) == [] ==> forall p :: 0 <= p < length ==> Resolve(layout, length)[p] == Seat
    ensures var gs, r := Groups(layout), Resolve(layout, length);
      gs != [] ==>
        forall p :: 0 <= p < length ==>
          && (r[p] == Aisle <==> exists j :: 0 <= j < |gs| - 1 && p == AislePos(gs, j))
          && (r[p] == Blocked <==> p >= Sum(gs) + |gs| - 1)
  {
    var gs := Groups(layout);
    if gs != [] {
      forall p | 0 <= p < length
        ensures var r := Fit(Emitted(gs), length);
          && (r[p] == Aisle <==> exists j :: 0 <= j < |gs| - 1 && p == AislePos(gs, j))
          && (r[p] == Blocked <==> p >= Sum(gs) + |gs| - 1)
      {
        if p < Sum(gs) + |gs| - 1 {
          EmittedRole(gs, p);
        } else {
          PaddingRole(gs, p);
        }
      }
    }
  }

  /** Inside the emitted pattern: an aisle exactly after a group but the last,
      a seat everywhere else. */
  lemma EmittedRole(gs: seq<nat>, p: nat)
    requires gs != [] && forall i :: 0 <= i < |gs| ==> gs[i] > 0
    requires p < Sum(gs) + |gs| - 1
    ensures p < |Emitted(gs)| && Emitted(gs)[p] != Blocked
    ensures Emitted(gs)[p] == Aisle <==> exists j :: 0 <= j < |gs| - 1 && p == AislePos(gs, j)
  {
    EmitLength(gs, |gs|);
    EmitRoles(gs, |gs|, p);
  }

  /** Beyond the emitted pattern: padding, and past every aisle position. */
  lemma PaddingRole(gs: seq<nat>, p: nat)
    requires gs != [] && p >= Sum(gs) + |gs| - 1
    ensures p >= |Emitted(gs)|
    ensures !exists j :: 0 <= j < |gs| - 1 && p == AislePos(gs, j)
  {
    EmitLength(gs, |gs|);
    forall j | 0 <= j < |gs| - 1 ensures AislePos(gs, j) < Sum(gs) + |gs| - 1 {
      SumMonotone(gs, j + 1, |gs| - 1);
      SumPrefix(gs, |gs| - 1);
      assert gs[..|gs|] == gs;
    }
  }

  lemma {:induction false} SplitAt(a: string, sep: char, b: string)
    requires sep !in a
    ensures Split(a + [sep] + b, sep) == [a] + Split(b, sep)
  {
    if a != [] {
      assert (a + [sep] + b)[1..] == a[1..] + [sep] + b;
      SplitAt(a[1..], sep, b);
      assert [a[0]] + a[1..] == a;
    } else {
      assert (a + [sep] + b)[1..] == b;
    }
  }

  lemma {:induction false} SplitWhole(a: string, sep: char)
    requires sep !in a
    ensures Split(a, sep) == [a]
  {
    if a != [] {
      SplitWhole(a[1..], sep);
      assert [a[0]] + a[1..] == a;
    }
  }

  /** A single non-zero digit is a group of that many seats. */
  lemma GroupDigit(c: char)
    requires '1' <= c <= '9'
    ensures GroupSize([c]) == Some(DigitValue(c))
  {
    assert !IsSpace(c);
    assert TrimStart([c]) == [c];
    assert TrimEnd([c]) == [c];
    ParseDigit(c);
  }

  /** Two single-digit groups joined by '-', such as the default "3-3", read
      as those two groups. */
  lemma GroupsOfTwo(a: char, b: char)
    requires '1' <= a <= '9' && '1' <= b <= '9'
    ensures Groups([a, '-', b]) == [DigitValue(a), DigitValue(b)]
  {
    SplitWhole([b], '-');
    SplitAt([a], '-', [b]);
    assert [a] + ['-'] + [b] == [a, '-', b];
    var parts := Split([a, '-', b], '-');
    assert parts == [[a], [b]];
    GroupDigit(a);
    GroupDigit(b);
    assert GroupSizes([[b]]) == [DigitValue(b)] by {
      assert [[b]][1..] == [];
    }
    assert parts[1..] == [[b]];
  }

  /** Two groups: the first group's seats, the aisle, the second group's seats. */
  lemma EmittedTwo(x: nat, y: nat)
    ensures Emitted([x, y]) == Seats(x) + [Aisle] + Seats(y)
  {
    assert EmitUpTo([x, y], 1) == Seats(x) + [Aisle];
  }

  /** In two groups of x and y seats the only aisle is at index x. */
  lemma TwoGroupsAisle(x: nat, y: nat)
    ensures var p := Seats(x) + [Aisle] + Seats(y);
      |p| == x + y + 1 && forall j :: 0 <= j < |p| ==> (p[j] == Aisle <==> j == x)
  {
    var p := Seats(x) + [Aisle] + Seats(y);
    forall j | 0 <= j < |p| ensures p[j] == Aisle <==> j == x {
      if j < x {
        assert p[j] == Seats(x)[j];
      } else if j > x {
        assert p[j] == Seats(y)[j - x - 1];
      }
    }
  }

  /** A layout of two single-digit groups gives, over any number of columns,
      the first group's seats, the aisle and the second group's seats, cut or
      padded to that number. */
  lemma ResolveTwoGroups(a: char, b: char, length: nat)
    requires '1' <= a <= '9' && '1' <= b <= '9'
    ensures Resolve([a, '-', b], length)
      == Fit(Seats(DigitValue(a)) + [Aisle] + Seats(DigitValue(b)), length)
  {
    GroupsOfTwo(a, b);
    EmittedTwo(DigitValue(a), DigitValue(b));
  }

  /** `parts.join(sep)`, the inverse of Split. */
  function Join(parts: seq<string>, sep: char): string
    requires |parts| >= 1
  {
    if |parts| == 1 then parts[0] else parts[0] + [sep] + Join(parts[1..], sep)
  }

  /** Splitting loses nothing: joining the pieces back gives the layout string. */
  lemma {:induction false} JoinSplit(s: string, sep: char)
    ensures Join(Split(s, sep), sep) == s
  {
    if s != [] {
      JoinSplit(s[1..], sep);
      var rest := Split(s[1..], sep);
      if s[0] != sep {
        var parts := Split(s, sep);
        assert parts[1..] == rest[1..];
        if |rest| == 1 {
        } else {
          assert Join(rest, sep) == rest[0] + [sep] + Join(rest[1..], sep);
        }
      }
      assert [s[0]] + s[1..] == s;
    }
  }
}
