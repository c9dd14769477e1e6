// Shared vocabulary for the console's data transformations: an Option type,
// the JavaScript string operations the handlers rely on (restricted to what
// the screens feed them), and ordered dictionaries standing for JavaScript
// objects whose key order is observable.

module Wrappers {
  datatype Option<+T> = None | Some(value: T)
}

module Text {

  predicate IsDigit(c: char) { '0' <= c <= '9' }
  predicate IsUpperAscii(c: char) { 'A' <= c <= 'Z' }
  predicate IsLowerAscii(c: char) { 'a' <= c <= 'z' }

  predicate AllDigits(s: string) { forall i :: 0 <= i < |s| ==> IsDigit(s[i]) }

  /** A string that JavaScript's Number() reads as a non-negative integer (decimal digits only). */
  predicate IsDecimal(s: string) { |s| > 0 && AllDigits(s) }

  function DigitChar(d: nat): (c: char)
    requires d < 10
    ensures IsDigit(c)
  {
    ('0' as int + d) as char
  }

  function DigitValue(c: char): (d: nat)
    requires IsDigit(c)
    ensures d < 10 && DigitChar(d) == c
  {
    c as int - '0' as int
  }

  /** Decimal rendering of a natural number, as a template literal `${n}` prints it. */
  function NatToString(n: nat): (s: string)
    ensures IsDecimal(s)
    ensures |s| == 1 <==> n < 10
    decreases n
  {
    if n < 10 then [DigitChar(n)] else NatToString(n / 10) + [DigitChar(n % 10)]
  }

  /** The value Number() gives a string of decimal digits. */
  function ParseNat(s: string): nat
    requires AllDigits(s)
  {
    if s == [] then 0 else ParseNat(s[..|s| - 1]) * 10 + DigitValue(s[|s| - 1])
  }

  lemma {:induction false} ParseNatToString(n: nat)
    ensures ParseNat(NatToString(n)) == n
    decreases n
  {
    if n >= 10 {
      var s := NatToString(n);
      assert s[..|s| - 1] == NatToString(n / 10);
      ParseNatToString(n / 10);
    }
  }

  /** A single digit reads as its own value. */
  lemma ParseDigit(c: char)
    requires IsDigit(c)
    ensures ParseNat([c]) == DigitValue(c)
  {
    assert [c][..0] == [];
  }

  lemma NatToStringInjective(a: nat, b: nat)
    requires a != b
    ensures NatToString(a) != NatToString(b)
  {
    ParseNatToString(a);
    ParseNatToString(b);
  }

  function UpperChar(c: char): (u: char)
    ensures IsLowerAscii(c) ==> u as int == c as int - 32
    ensures !IsLowerAscii(c) ==> u == c
  {
    if IsLowerAscii(c) then (c as int - 32) as char else c
  }

  function LowerChar(c: char): (l: char)
    ensures IsUpperAscii(c) ==> l as int == c as int + 32
    ensures !IsUpperAscii(c) ==> l == c
  {
    if IsUpperAscii(c) then (c as int + 32) as char else c
  }

  function ToUpper(s: string): (r: string)
    ensures |r| == |s|
  {
    if s == [] then [] else [UpperChar(s[0])] + ToUpper(s[1..])
  }

  function ToLower(s: string): (r: string)
    ensures |r| == |s|
  {
    if s == [] then [] else [LowerChar(s[0])] + ToLower(s[1..])
  }

  /** The white space String.prototype.trim removes, limited to the ASCII and BMP marks the screens can carry. */
  predicate IsSpace(c: char)
  {
    c == ' ' || c == '\t' || c == '\n' || c == '\r' || c == '\U{000B}' || c == '\U{000C}' || c == '\U{00A0}' || c == '\U{FEFF}'
  }

  function TrimStart(s: string): (r: string)
    ensures |r| <= |s|
    ensures r == s[|s| - |r|..]
    ensures r != [] ==> !IsSpace(r[0])
    ensures forall i :: 0 <= i < |s| - |r| ==> IsSpace(s[i])
  {
    if s != [] && IsSpace(s[0]) then TrimStart(s[1..]) else s
  }

  function TrimEnd(s: string): (r: string)
    ensures |r| <= |s|
    ensures r == s[..|r|]
    ensures r != [] ==> !IsSpace(r[|r| - 1])
    ensures forall i :: |r| <= i < |s| ==> IsSpace(s[i])
  {
    if s != [] && IsSpace(s[|s| - 1]) then TrimEnd(s[..|s| - 1]) else s
  }

  function Trim(s: string): (r: string)
    ensures r != [] ==> !IsSpace(r[0]) && !IsSpace(r[|r| - 1])
    ensures r == [] <==> forall i :: 0 <= i < |s| ==> IsSpace(s[i])
  {
    TrimEnd(TrimStart(s))
  }

  predicate StartsWith(s: string, prefix: string)
  {
    |prefix| <= |s| && s[..|prefix|] == prefix
  }

  /** String.prototype.includes: `t` occurs somewhere in `s`. */
  predicate Contains(s: string, t: string)
    decreases |s|
  {
    StartsWith(s, t) || (s != [] && Contains(s[1..], t))
  }

  /** charCodeAt(0): the first UTF-16 code unit of a character. */
  function CodeUnit(c: char): (k: int)
    ensures 0 <= k < 0x1_0000
    ensures c as int < 0x1_0000 ==> k == c as int
  {
    if c as int < 0x1_0000 then c as int else 0xD800 + (c as int - 0x1_0000) / 0x400
  }

  /** String.fromCharCode(k): the code unit k mod 2^16 as a character;
      a lone surrogate unit, which a Dafny char cannot hold, becomes U+FFFD. */
  function CharOfUnit(k: int): (c: char)
    ensures 0 <= k < 0xD800 ==> c as int == k
    ensures 0xE000 <= k < 0x1_0000 ==> c as int == k
  {
    var u := k % 0x1_0000;
    if 0xD800 <= u < 0xE000 then '\U{FFFD}' else u as char
  }
}

/** Ordered dictionaries: a JavaScript object keyed by strings keeps its keys in
    insertion order, and assigning to an existing key keeps that key's place.
    `keys` is that order and `values` the lookup table. */
module Dicts {
  import opened Wrappers

  datatype Dict<K(==), V> = Dict(keys: seq<K>, values: map<K, V>)

  predicate NoDup<T(==)>(s: seq<T>)
  {
    forall i, j :: 0 <= i < j < |s| ==> s[i] != s[j]
  }

  /** The key order lists every key of the table exactly once. */
  ghost predicate Valid<K(!new), V>(d: Dict<K, V>)
  {
    NoDup(d.keys) && forall k :: k in d.keys <==> k in d.values
  }

  function Empty<K(==,!new), V>(): (d: Dict<K, V>)
    ensures Valid(d) && d.keys == [] && d.values == map[]
  {
    Dict([], map[])
  }

  /** `obj[k]`, with None for a missing key. */
  function Get<K(==), V>(d: Dict<K, V>, k: K): (r: Option<V>)
    ensures r.Some? <==> k in d.values
    ensures r.Some? ==> r.value == d.values[k]
  {
    if k in d.values then Some(d.values[k]) else None
  }

  /** `{ ...d, [k]: v }`: an existing key keeps its place, a new key goes last. */
  function Put<K(==,!new), V>(d: Dict<K, V>, k: K, v: V): (r: Dict<K, V>)
    ensures r.values == d.values[k := v]
    ensures r.keys == if k in d.values then d.keys else d.keys + [k]
    ensures Valid(d) ==> Valid(r)
  {
    Dict(if k in d.values then d.keys else d.keys + [k], d.values[k := v])
  }

  /** `s.filter(x => x !== k)` */
  function Without<T(==,!new)>(s: seq<T>, k: T): (r: seq<T>)
    ensures forall x :: x in r <==> x in s && x != k
    ensures |r| <= |s|
    ensures NoDup(s) ==> NoDup(r)
    ensures k !in s ==> r == s
  {
    if s == [] then []
    else if s[0] == k then Without(s[1..], k)
    else
      var rest := Without(s[1..], k);
      assert forall i :: 0 < i < |[s[0]] + rest| ==> ([s[0]] + rest)[i] in s[1..];
      [s[0]] + rest
  }

  /** A copy of the object with `delete copy[k]` applied. */
  function Remove<K(==,!new), V>(d: Dict<K, V>, k: K): (r: Dict<K, V>)
    ensures r.values == d.values - {k}
    ensures r.keys == Without(d.keys, k)
    ensures Valid(d) ==> Valid(r)
  {
    Dict(Without(d.keys, k), d.values - {k})
  }

  /** The object obtained by assigning `vals[i]` to `keys[i]` in turn, starting
      from an empty one. */
  function FromPairs<K(==,!new), V>(keys: seq<K>, vals: seq<V>): (d: Dict<K, V>)
    requires |keys| == |vals|
    ensures Valid(d)
    ensures forall k :: k in d.values <==> k in keys
  {
    if keys == [] then Empty()
    else
      var n := |keys| - 1;
      assert forall k :: k in keys <==> k in keys[..n] || k == keys[n] by {
        assert keys == keys[..n] + [keys[n]];
      }
      Put(FromPairs(keys[..n], vals[..n]), keys[n], vals[n])
  }

  /** Every value filed is the value assigned to that key by some pair. */
  lemma {:induction false} FromPairsValues<K(!new), V>(keys: seq<K>, vals: seq<V>, k: K)
    requires |keys| == |vals| && k in FromPairs(keys, vals).values
    ensures exists i :: 0 <= i < |keys| && keys[i] == k && FromPairs(keys, vals).values[k] == vals[i]
  {
    var n := |keys| - 1;
    if keys[n] != k {
      FromPairsValues(keys[..n], vals[..n], k);
      var i :| 0 <= i < n && keys[..n][i] == k && FromPairs(keys[..n], vals[..n]).values[k] == vals[..n][i];
      assert keys[i] == k && vals[i] == vals[..n][i];
    }
  }

  lemma NoDupInit<T>(s: seq<T>)
    requires NoDup(s) && s != []
    ensures NoDup(s[..|s| - 1]) && s[|s| - 1] !in s[..|s| - 1]
  {
    var n := |s| - 1;
    forall i | 0 <= i < n ensures s[..n][i] != s[n] {
      assert s[..n][i] == s[i];
    }
  }

  /** One more pair assigned. */
  lemma FromPairsSnoc<K(!new), V>(keys: seq<K>, vals: seq<V>, i: nat)
    requires i < |keys| == |vals|
    ensures FromPairs(keys[..i + 1], vals[..i + 1]) == Put(FromPairs(keys[..i], vals[..i]), keys[i], vals[i])
  {
    assert keys[..i + 1][..i] == keys[..i] && vals[..i + 1][..i] == vals[..i];
  }

  lemma NoDupSnoc<T>(s: seq<T>, x: T)
    requires NoDup(s) && x !in s
    ensures NoDup(s + [x])
  {
    forall i, j | 0 <= i < j < |s| + 1 ensures (s + [x])[i] != (s + [x])[j] {
      assert (s + [x])[i] == s[i];
    }
  }

  /** With distinct keys, the keys are filed in order, each with its own value. */
  lemma {:induction false} FromPairsDistinct<K(!new), V>(keys: seq<K>, vals: seq<V>)
    requires |keys| == |vals| && NoDup(keys)
    ensures FromPairs(keys, vals).keys == keys
    ensures forall i :: 0 <= i < |keys| ==> FromPairs(keys, vals).values[keys[i]] == vals[i]
  {
    if keys != [] {
      var n := |keys| - 1;
      var ks, vs := keys[..n], vals[..n];
      NoDupInit(keys);
      FromPairsDistinct(ks, vs);
      FromPairsLast(keys, vals);
      var d0, d := FromPairs(ks, vs), FromPairs(keys, vals);
      forall i | 0 <= i < n ensures d.values[keys[i]] == vals[i] {
        assert keys[i] == ks[i] && vals[i] == vs[i] && keys[i] != keys[n];
      }
    }
  }

  /** The last pair of distinct keys goes last, on top of the earlier pairs. */
  lemma FromPairsLast<K(!new), V>(keys: seq<K>, vals: seq<V>)
    requires |keys| == |vals| && keys != [] && NoDup(keys)
    requires FromPairs(keys[..|keys| - 1], vals[..|vals| - 1]).keys == keys[..|keys| - 1]
    ensures var n := |keys| - 1; var d0 := FromPairs(keys[..n], vals[..n]);
      && FromPairs(keys, vals).keys == keys
      && FromPairs(keys, vals).values == d0.values[keys[n] := vals[n]]
  {
    var n := |keys| - 1;
    NoDupInit(keys);
    var d0 := FromPairs(keys[..n], vals[..n]);
    assert keys[n] !in d0.values;
    assert FromPairs(keys, vals) == Put(d0, keys[n], vals[n]);
    InitLast(keys);
  }

  lemma InitLast<T>(s: seq<T>)
    requires s != []
    ensures s[..|s| - 1] + [s[|s| - 1]] == s
  {
  }
}
