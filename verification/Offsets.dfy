/**
 UTF-16 offsets to code-point offsets: one pass over a text for any list of ranges, compared with the plain count of
 the code points that start before an offset.
 */
module Offsets {
  import opened Common

  /** A UTF-16 code unit. */
  type Unit = u: int | 0 <= u < 0x10000

  type Text = seq<Unit>

  // ---------------------------------------------------------------------------------------------------------
  // Code points (section 3.9 of the Unicode Standard; a lone surrogate counts as one).

  predicate PairAt(text: Text, i: nat) {
    && i + 1 < |text|
    && 0xD800 <= text[i] < 0xDC00
    && 0xDC00 <= text[i + 1] < 0xE000
  }

  function Width(text: Text, i: nat): nat {
    if PairAt(text, i) then 2 else 1
  }

  function CodePointAt(text: Text, i: nat): nat
    requires i < |text|
  {
    var high: int := text[i];
    if PairAt(text, i) then
      var low: int := text[i + 1];
      0x10000 + (high - 0xD800) * 0x400 + (low - 0xDC00)
    else high
  }

  /** The code points from position `i` on. */
  function DecodeFrom(text: Text, i: nat): seq<nat>
    decreases |text| - i
  {
    if i >= |text| then [] else [CodePointAt(text, i)] + DecodeFrom(text, i + Width(text, i))
  }

  function Decode(text: Text): seq<nat> {
    DecodeFrom(text, 0)
  }

  /** How many code points start at `i` or behind it, and before `offset`. */
  function StartsBetween(text: Text, i: nat, offset: int): nat
    decreases |text| - i
  {
    if i >= |text| || i >= offset then 0 else 1 + StartsBetween(text, i + Width(text, i), offset)
  }

  /** The code-point offset of a UTF-16 offset. */
  function CodePointsBefore(text: Text, offset: int): nat {
    StartsBetween(text, 0, offset)
  }

  /** Reading code points from `i` on reaches `k` exactly. */
  predicate Reaches(text: Text, i: nat, k: nat)
    decreases |text| - i
  {
    i == k || (i < k && i < |text| && Reaches(text, i + Width(text, i), k))
  }

  predicate Boundary(text: Text, k: nat) {
    k <= |text| && Reaches(text, 0, k)
  }

  // ---------------------------------------------------------------------------------------------------------
  // The one-pass map.

  function MapRange(text: Text, r: (int, int)): (nat, nat) {
    (CodePointsBefore(text, r.0), CodePointsBefore(text, r.1))
  }

  /** The ranges in code points, without the ones that become empty. */
  function MapRanges(text: Text, ranges: seq<(int, int)>): seq<(nat, nat)> {
    if ranges == [] then []
    else
      var m := MapRange(text, ranges[0]);
      (if m.1 > m.0 then [m] else []) + MapRanges(text, ranges[1..])
  }

  predicate Increasing(s: seq<int>) {
    forall i, j :: 0 <= i < j < |s| ==> s[i] < s[j]
  }

  /** The distinct offsets in increasing order. */
  function Insert(x: int, s: seq<int>): (r: seq<int>)
    requires Increasing(s)
    ensures Increasing(r) && forall y :: y in r <==> y == x || y in s
  {
    if s == [] then [x]
    else if x < s[0] then [x] + s
    else if x == s[0] then s
    else
      var rest := Insert(x, s[1..]);
      assert forall y :: y in rest ==> y > s[0];
      assert forall j :: 0 <= j < |rest| ==> rest[j] in rest;
      [s[0]] + rest
  }

  function Offsets(ranges: seq<(int, int)>): (r: seq<int>)
    ensures Increasing(r)
    ensures forall range :: range in ranges ==> range.0 in r && range.1 in r
  {
    if ranges == [] then [] else Insert(ranges[0].0, Insert(ranges[0].1, Offsets(ranges[1..])))
  }

  lemma {:induction false} CountSplits(text: Text, i: nat, k: nat, offset: int)
    requires Reaches(text, i, k) && k <= offset
    ensures StartsBetween(text, i, offset) == StartsBetween(text, i, k) + StartsBetween(text, k, offset)
    decreases |text| - i
  {
    if i < k {
      CountSplits(text, i + Width(text, i), k, offset);
    }
  }

  lemma {:induction false} ReachesNext(text: Text, i: nat, k: nat)
    requires Reaches(text, i, k) && k < |text|
    ensures Reaches(text, i, k + Width(text, k))
    decreases |text| - i
  {
    if i < k {
      ReachesNext(text, i + Width(text, i), k);
    }
  }

  /** Every offset inside or at the end of the code point at a boundary counts one more than the boundary. */
  lemma StepCount(text: Text, k: nat, offset: int)
    requires Boundary(text, k) && k < |text| && k < offset <= k + Width(text, k)
    ensures CodePointsBefore(text, offset) == CodePointsBefore(text, k) + 1
  {
    CountSplits(text, 0, k, offset);
  }

  method ToCodePointRanges(text: Text, ranges: seq<(int, int)>) returns (out: seq<(nat, nat)>)
    ensures out == MapRanges(text, ranges)
  {
    var codePointAt := MapOffsets(text, Offsets(ranges));
    out := [];
    for i := 0 to |ranges|
      invariant out + MapRanges(text, ranges[i..]) == MapRanges(text, ranges)
    {
      assert ranges[i] in ranges;
      MapRangesStep(text, ranges, i, out);
      var m := (codePointAt[ranges[i].0], codePointAt[ranges[i].1]);
      if m.1 > m.0 {
        out := out + [m];
      }
    }
  }

  lemma MapRangesStep(text: Text, ranges: seq<(int, int)>, i: nat, out: seq<(nat, nat)>)
    requires i < |ranges|
    ensures
      var m := MapRange(text, ranges[i]);
      out + MapRanges(text, ranges[i..]) == (if m.1 > m.0 then out + [m] else out) + MapRanges(text, ranges[i + 1..])
  {
    assert ranges[i..][1..] == ranges[i + 1..];
  }

  /** The three loops over one cursor into the sorted offsets. */
  method MapOffsets(text: Text, offsets: seq<int>) returns (codePointAt: map<int, nat>)
    requires Increasing(offsets)
    ensures forall o :: o in offsets ==> o in codePointAt && codePointAt[o] == CodePointsBefore(text, o)
  {
    codePointAt := map[];
    var utf16Index, codePointIndex, cursor := 0, 0, 0;
    while cursor < |offsets| && offsets[cursor] <= 0
      invariant cursor <= |offsets|
      invariant MapsFirst(text, offsets[..cursor], codePointAt)
    {
      MapsOneMore(text, offsets, cursor, codePointAt, 0);
      codePointAt := codePointAt[offsets[cursor] := 0];
      cursor := cursor + 1;
    }
    while utf16Index < |text| && cursor < |offsets|
      invariant cursor <= |offsets| && Boundary(text, utf16Index)
      invariant codePointIndex == CodePointsBefore(text, utf16Index)
      invariant MapsFirst(text, offsets[..cursor], codePointAt)
      invariant cursor < |offsets| ==> offsets[cursor] > utf16Index
    {
      ghost var k := utf16Index;
      NextBoundary(text, k);
      utf16Index := utf16Index + Width(text, utf16Index);
      codePointIndex := codePointIndex + 1;
      while cursor < |offsets| && offsets[cursor] <= utf16Index
        invariant cursor <= |offsets|
        invariant cursor < |offsets| ==> offsets[cursor] > k
        invariant MapsFirst(text, offsets[..cursor], codePointAt)
      {
        StepCount(text, k, offsets[cursor]);
        MapsOneMore(text, offsets, cursor, codePointAt, codePointIndex);
        codePointAt := codePointAt[offsets[cursor] := codePointIndex];
        cursor := cursor + 1;
      }
    }
    while cursor < |offsets|
      invariant cursor <= |offsets|
      invariant MapsFirst(text, offsets[..cursor], codePointAt)
      invariant cursor < |offsets| ==> utf16Index >= |text| && offsets[cursor] > utf16Index
    {
      CountSplits(text, 0, utf16Index, offsets[cursor]);
      MapsOneMore(text, offsets, cursor, codePointAt, codePointIndex);
      codePointAt := codePointAt[offsets[cursor] := codePointIndex];
      cursor := cursor + 1;
    }
    assert offsets[..cursor] == offsets;
  }

  lemma NextBoundary(text: Text, k: nat)
    requires Boundary(text, k) && k < |text|
    ensures Boundary(text, k + Width(text, k))
    ensures CodePointsBefore(text, k + Width(text, k)) == CodePointsBefore(text, k) + 1
  {
    ReachesNext(text, 0, k);
    StepCount(text, k, k + Width(text, k));
  }

  /** These offsets are mapped, each to its count. */
  predicate MapsFirst(text: Text, offsets: seq<int>, m: map<int, nat>) {
    forall o :: o in offsets ==> o in m && m[o] == CodePointsBefore(text, o)
  }

  lemma MapsOneMore(text: Text, offsets: seq<int>, n: nat, m: map<int, nat>, count: nat)
    requires n < |offsets| && MapsFirst(text, offsets[..n], m) && count == CodePointsBefore(text, offsets[n])
    ensures MapsFirst(text, offsets[..n + 1], m[offsets[n] := count])
  {
    assert offsets[..n + 1] == offsets[..n] + [offsets[n]];
  }

  // ---------------------------------------------------------------------------------------------------------
  // What the mapped ranges mean.

  lemma CodePointShift(text: Text, k: nat, i: nat)
    requires k <= |text| && k + i < |text|
    ensures Width(text[k..], i) == Width(text, k + i) && CodePointAt(text[k..], i) == CodePointAt(text, k + i)
  {
    assert PairAt(text[k..], i) <==> PairAt(text, k + i);
  }

  lemma {:induction false} DecodeShift(text: Text, k: nat, i: nat)
    requires k <= |text|
    ensures DecodeFrom(text[k..], i) == DecodeFrom(text, k + i)
    decreases |text| - k - i
  {
    if k + i < |text| {
      CodePointShift(text, k, i);
      hide Width, CodePointAt;
      DecodeShift(text, k, i + Width(text, k + i));
    }
  }

  /** Cutting a text at or behind the end of a code point leaves that code point as it was. */
  lemma CutKeepsCodePoint(text: Text, i: nat, k: nat)
    requires i < |text| && i + Width(text, i) <= k <= |text|
    ensures Width(text[..k], i) == Width(text, i) && CodePointAt(text[..k], i) == CodePointAt(text, i)
  {
    assert PairAt(text[..k], i) <==> PairAt(text, i);
  }

  /** Reading up to a boundary is reading the text cut there. */
  lemma {:induction false} DecodeCut(text: Text, i: nat, k: nat)
    requires k <= |text| && Reaches(text, i, k)
    ensures DecodeFrom(text, i) == DecodeFrom(text[..k], i) + DecodeFrom(text, k)
    ensures |DecodeFrom(text[..k], i)| == StartsBetween(text, i, k)
    decreases |text| - i
  {
    if i < k {
      var next := i + Width(text, i);
      assert Reaches(text, next, k) && next <= k;
      CutKeepsCodePoint(text, i, k);
      DecodeCut(text, next, k);
      var c := [CodePointAt(text, i)];
      assert DecodeFrom(text[..k], i) == c + DecodeFrom(text[..k], next);
      assert c + (DecodeFrom(text[..k], next) + DecodeFrom(text, k))
          == c + DecodeFrom(text[..k], next) + DecodeFrom(text, k);
    }
  }

  lemma {:induction false} ReachesInCut(text: Text, i: nat, a: nat, b: nat)
    requires Reaches(text, i, a) && Reaches(text, i, b) && a <= b <= |text|
    ensures Reaches(text[..b], i, a)
    decreases |text| - i
  {
    if i < a {
      var next := i + Width(text, i);
      assert Reaches(text, next, b) && next <= b;
      assert PairAt(text[..b], i) <==> PairAt(text, i);
      ReachesInCut(text, next, a, b);
    }
  }

  /** Between two boundaries the code-point slice holds exactly the code points of the UTF-16 slice. */
  lemma SlicesAgree(text: Text, a: nat, b: nat)
    requires Boundary(text, a) && Boundary(text, b) && a <= b
    ensures CodePointsBefore(text, a) <= CodePointsBefore(text, b) <= |Decode(text)|
    ensures Decode(text)[CodePointsBefore(text, a)..CodePointsBefore(text, b)] == Decode(text[a..b])
  {
    var front := text[..b];
    DecodeCut(text, 0, b);
    ReachesInCut(text, 0, a, b);
    DecodeCut(front, 0, a);
    assert front[..a] == text[..a] && front[a..] == text[a..b];
    DecodeCut(text, 0, a);
    DecodeShift(front, a, 0);
    CountSplits(text, 0, a, b);
  }

  /** A code point read from `i` on starts at `a` or behind it, and before `b`. */
  ghost predicate StartsIn(text: Text, i: nat, a: int, b: int) {
    exists k: nat :: a <= k < b && k < |text| && Reaches(text, i, k)
  }

  /** The count grows between two offsets exactly when a code point starts at the first or between them. */
  lemma {:induction false} CountGrowsIff(text: Text, i: nat, a: int, b: int)
    requires a <= b
    ensures StartsBetween(text, i, a) <= StartsBetween(text, i, b)
    ensures StartsBetween(text, i, a) < StartsBetween(text, i, b) <==> StartsIn(text, i, a, b)
    decreases |text| - i
  {
    if i >= |text| || i >= b {
      assert forall k: nat :: Reaches(text, i, k) ==> k >= i;
    } else if i >= a {
      assert Reaches(text, i, i) && a <= i < b && i < |text|;
      assert StartsIn(text, i, a, b);
      assert StartsBetween(text, i, a) == 0;
    } else {
      var next := i + Width(text, i);
      CountGrowsIff(text, next, a, b);
      if StartsIn(text, next, a, b) {
        var k: nat :| a <= k < b && k < |text| && Reaches(text, next, k);
        assert Reaches(text, i, k);
      }
      if StartsIn(text, i, a, b) {
        var k: nat :| a <= k < b && k < |text| && Reaches(text, i, k);
        assert Reaches(text, next, k);
      }
    }
  }

  /** A range survives exactly when a code point starts in it. */
  lemma RangeKeptIff(text: Text, r: (int, int))
    ensures MapRange(text, r).1 > MapRange(text, r).0 <==> StartsIn(text, 0, r.0, r.1)
  {
    if r.0 <= r.1 {
      CountGrowsIff(text, 0, r.0, r.1);
    } else {
      CountGrowsIff(text, 0, r.1, r.0);
    }
  }

  predicate Overlap(a: (int, int), b: (int, int)) {
    a.0 < b.1 && b.0 < a.1
  }

  predicate Aligned(text: Text, r: (int, int)) {
    0 <= r.0 <= r.1 <= |text| && Boundary(text, r.0) && Boundary(text, r.1)
  }

  /** Between boundaries, order is kept both ways. */
  lemma BoundaryOrder(text: Text, a: nat, b: nat)
    requires Boundary(text, a) && Boundary(text, b)
    ensures a < b <==> CodePointsBefore(text, a) < CodePointsBefore(text, b)
  {
    if a < b {
      CountGrowsIff(text, 0, a, b);
      assert a < |text| && Reaches(text, 0, a);
      assert StartsIn(text, 0, a, b);
    } else {
      CountGrowsIff(text, 0, b, a);
    }
  }

  /** Two aligned ranges overlap exactly when their code-point ranges do. */
  lemma OverlapPreserved(text: Text, a: (int, int), b: (int, int))
    requires Aligned(text, a) && Aligned(text, b)
    ensures Overlap(a, b) <==> Overlap(MapRange(text, a), MapRange(text, b))
  {
    BoundaryOrder(text, a.0, b.1);
    BoundaryOrder(text, b.0, a.1);
  }
}
