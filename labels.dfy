// The seatmap builder's label expander: a cabin's row extent ("1".."10") or
// column extent ("A".."F") becomes the ordered list of its labels.

module Labels {
  import opened Text

  /** labelRange: empty when a bound is missing; the decimal labels s..e when
      both bounds are numbers; otherwise the characters from the code of the
      upper-cased first character of `start` to that of `end`. A reversed
      range is empty. */
  function LabelRange(start: string, end: string): (r: seq<string>)
    ensures start == "" || end == "" ==> r == []
  {
    if start == "" || end == "" then []
    else if IsDecimal(start) && IsDecimal(end) then
      var s, e := ParseNat(start), ParseNat(end);
      if e < s then [] else seq(e - s + 1, i requires 0 <= i <= e - s => NatToString(s + i))
    else
      var sc, ec := StartCode(start), StartCode(end);
      if ec < sc then [] else seq(ec - sc + 1, i requires 0 <= i <= ec - sc => [CharOfUnit(sc + i)])
  }

  /** `label.toUpperCase().charCodeAt(0)` */
  function StartCode(bound: string): int
    requires bound != ""
  {
    CodeUnit(UpperChar(bound[0]))
  }

  /** Numeric bounds give e - s + 1 consecutive decimal labels, each reading back
      as its number, in ascending order; a reversed pair gives none. */
  lemma LabelRangeNumeric(start: string, end: string)
    requires IsDecimal(start) && IsDecimal(end)
    ensures var s, e, r := ParseNat(start), ParseNat(end), LabelRange(start, end);
      && (e < s ==> r == [])
      && (s <= e ==> |r| == e - s + 1)
      && (forall i :: 0 <= i < |r| ==> IsDecimal(r[i]) && ParseNat(r[i]) == s + i)
      && (forall i, j :: 0 <= i < j < |r| ==> ParseNat(r[i]) < ParseNat(r[j]))
  {
    var s, e, r := ParseNat(start), ParseNat(end), LabelRange(start, end);
    forall i | 0 <= i < |r| ensures IsDecimal(r[i]) && ParseNat(r[i]) == s + i {
      ParseNatToString(s + i);
    }
  }

  /** Bounds that are not both numbers give one single-character label per code
      from the first bound's to the last bound's, in order. */
  lemma LabelRangeAlphabetic(start: string, end: string)
    requires start != "" && end != "" && !(IsDecimal(start) && IsDecimal(end))
    ensures var sc, ec, r := StartCode(start), StartCode(end), LabelRange(start, end);
      && (ec < sc ==> r == [])
      && (sc <= ec ==> |r| == ec - sc + 1)
      && (forall i :: 0 <= i < |r| ==> |r[i]| == 1)
      && (forall i :: 0 <= i < |r| && (sc + i < 0xD800 || 0xE000 <= sc + i) ==> r[i][0] as int == sc + i)
  {
    var sc, ec, r := StartCode(start), StartCode(end), LabelRange(start, end);
    forall i | 0 <= i < |r|
      ensures r[i] == [CharOfUnit(sc + i)] && 0 <= sc + i < 0x1_0000
    {
    }
  }

  /** Only the first character of each bound matters: truncating both bounds to
      one character gives the same labels whenever they were not both numbers. */
  lemma LabelRangeFirstCharOnly(start: string, end: string)
    requires start != "" && end != "" && !(IsDecimal(start) && IsDecimal(end))
    ensures LabelRange(start, end) == LabelRange(start[..1], end[..1])
  {
    var a, b := start[..1], end[..1];
    if IsDecimal(a) && IsDecimal(b) {
      DigitBounds(start, end);
    } else {
      assert a[0] == start[0] && b[0] == end[0];
    }
  }

  /** Two bounds that start with digits but are not both numbers: the code
      range of their first characters and the decimal range of those two
      digits coincide. */
  lemma DigitBounds(start: string, end: string)
    requires start != "" && end != "" && !(IsDecimal(start) && IsDecimal(end))
    requires IsDigit(start[0]) && IsDigit(end[0])
    ensures LabelRange(start, end) == LabelRange(start[..1], end[..1])
  {
    var a, b := start[..1], end[..1];
    assert a == [start[0]] && b == [end[0]];
    ParseDigit(start[0]);
    ParseDigit(end[0]);
    var s, e := DigitValue(start[0]), DigitValue(end[0]);
    var sc := StartCode(start);
    assert sc == '0' as int + s && StartCode(end) == '0' as int + e;
    var r1, r2 := LabelRange(start, end), LabelRange(a, b);
    if s <= e {
      forall i | 0 <= i < |r1| ensures r1[i] == r2[i] {
        DigitLabel(s + i);
      }
    }
  }

  /** A one-digit number prints as the character of its code. */
  lemma DigitLabel(d: nat)
    requires d < 10
    ensures NatToString(d) == [CharOfUnit('0' as int + d)]
  {
  }
}
