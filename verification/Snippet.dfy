/**
 The snippet around a match: the widest window of code points that fits its limits in UTF-16
 units and UTF-8 bytes, with an ellipsis where text is left out.
 */
module Snippet {
  import opened Markdown

  const MAX_UNITS := 320
  const MAX_BYTES := 1_280
  const ELLIPSIS: CodePoint := 0x2026

  /** UTF-16 code units of a code point. */
  function UnitsOf(c: CodePoint): nat {
    if c < 0x1_0000 then 1 else 2
  }

  /** UTF-8 bytes of a code point. */
  function BytesOf(c: CodePoint): nat {
    if c < 0x80 then 1 else if c < 0x800 then 2 else if c < 0x1_0000 then 3 else 4
  }

  function Total(text: Markup, size: CodePoint -> nat): nat
    decreases |text|
  {
    if text == [] then 0 else Total(text[..|text| - 1], size) + size(text[|text| - 1])
  }

  function Units(text: Markup): nat {
    Total(text, UnitsOf)
  }

  function Bytes(text: Markup): nat {
    Total(text, BytesOf)
  }

  lemma {:induction false} TotalConcat(a: Markup, b: Markup, size: CodePoint -> nat)
    ensures Total(a + b, size) == Total(a, size) + Total(b, size)
    decreases |b|
  {
    if b == [] {
      assert a + b == a;
    } else {
      TotalConcat(a, b[..|b| - 1], size);
      assert (a + b)[..|a + b| - 1] == a + b[..|b| - 1];
    }
  }

  lemma TotalOfSlice(text: Markup, i: nat, j: nat, size: CodePoint -> nat)
    requires i <= j <= |text|
    ensures Total(text[i..j], size) == Total(text[..j], size) - Total(text[..i], size)
  {
    TotalConcat(text[..i], text[i..j], size);
    assert text[..i] + text[i..j] == text[..j];
  }

  lemma TotalOfOne(c: CodePoint, size: CodePoint -> nat)
    ensures Total([c], size) == size(c)
  {
    assert [c][..0] == [];
  }

  /** The rendering of the points from..until, with an ellipsis at each end that is not an end of the text. */
  function Rendered(text: Markup, from: nat, until: nat): Markup
    requires from < until <= |text|
  {
    (if from > 0 then [ELLIPSIS] else []) + text[from..until] + (if until < |text| then [ELLIPSIS] else [])
  }

  predicate Fits(text: Markup, from: nat, until: nat)
    requires from < until <= |text|
  {
    Units(Rendered(text, from, until)) <= MAX_UNITS && Bytes(Rendered(text, from, until)) <= MAX_BYTES
  }

  function Edges(text: Markup, from: nat, until: nat): nat {
    (if from > 0 then 1 else 0) + if until < |text| then 1 else 0
  }

  /** What the code adds up: the points by their prefix sums, and one unit and three bytes for each ellipsis. */
  lemma RenderedSize(text: Markup, from: nat, until: nat)
    requires from < until <= |text|
    ensures Units(Rendered(text, from, until)) == Units(text[..until]) - Units(text[..from]) + Edges(text, from, until)
    ensures Bytes(Rendered(text, from, until)) == Bytes(text[..until]) - Bytes(text[..from]) + 3 * Edges(text, from, until)
  {
    RenderedTotal(text, from, until, UnitsOf);
    RenderedTotal(text, from, until, BytesOf);
  }

  lemma RenderedTotal(text: Markup, from: nat, until: nat, size: CodePoint -> nat)
    requires from < until <= |text|
    ensures Total(Rendered(text, from, until), size)
         == Total(text[..until], size) - Total(text[..from], size) + size(ELLIPSIS) * Edges(text, from, until)
  {
    var left: Markup, right: Markup := if from > 0 then [ELLIPSIS] else [], if until < |text| then [ELLIPSIS] else [];
    TotalConcat(left + text[from..until], right, size);
    TotalConcat(left, text[from..until], size);
    TotalOfSlice(text, from, until, size);
    TotalOfOne(ELLIPSIS, size);
  }

  /** One code point always fits. */
  lemma OnePointFits(text: Markup, at: nat)
    requires at < |text|
    ensures Fits(text, at, at + 1)
  {
    RenderedSize(text, at, at + 1);
    assert text[..at + 1] == text[..at] + [text[at]];
    TotalConcat(text[..at], [text[at]], UnitsOf);
    TotalConcat(text[..at], [text[at]], BytesOf);
    TotalOfOne(text[at], UnitsOf);
    TotalOfOne(text[at], BytesOf);
  }

  /** Where each point ends, in units: the prefix sums behind the first. */
  ghost predicate PrefixSums(sums: seq<nat>, text: Markup, n: nat, size: CodePoint -> nat)
    requires n <= |text|
  {
    |sums| == n + 1 && forall i :: 0 <= i <= n ==> sums[i] == Total(text[..i], size)
  }

  method Sums(text: Markup, size: CodePoint -> nat) returns (sums: seq<nat>)
    ensures PrefixSums(sums, text, |text|, size)
  {
    sums := [0];
    for n := 0 to |text|
      invariant PrefixSums(sums, text, n, size)
    {
      assert text[..n + 1][..n] == text[..n];
      sums := sums + [sums[n] + size(text[n])];
    }
  }

  /** findIndex over the ends of the points; positions are doubled so that the middle of a match is one. */
  method FirstEnding(ends: seq<nat>, doubled: nat, strictly: bool) returns (at: nat)
    requires |ends| >= 2
    ensures at + 1 < |ends|
    ensures forall i :: 1 <= i <= at ==> if strictly then 2 * ends[i] <= doubled else 2 * ends[i] < doubled
    ensures at + 2 < |ends| ==> if strictly then 2 * ends[at + 1] > doubled else 2 * ends[at + 1] >= doubled
  {
    at := 0;
    while at + 2 < |ends| && (if strictly then 2 * ends[at + 1] <= doubled else 2 * ends[at + 1] < doubled)
      invariant at + 1 < |ends|
      invariant forall i :: 1 <= i <= at ==> if strictly then 2 * ends[i] <= doubled else 2 * ends[i] < doubled
    {
      at := at + 1;
    }
  }

  /** The points that the match touches. */
  method MatchedPoints(ends: seq<nat>, index: nat, length: nat) returns (left: nat, right: nat)
    requires |ends| >= 2
    ensures left <= right && right + 1 < |ends|
    ensures forall i :: 1 <= i <= left ==> ends[i] <= index
    ensures left + 2 < |ends| ==> ends[left + 1] > index
    ensures right + 2 < |ends| ==> ends[right + 1] >= index + length
    ensures right > left ==> ends[right] < index + length
  {
    left := FirstEnding(ends, 2 * index, true);
    right := left;
    while right + 2 < |ends| && ends[right + 1] < index + length
      invariant left <= right && right + 1 < |ends|
      invariant right > left ==> ends[right] < index + length
    {
      right := right + 1;
    }
  }

  /** No wider window by a point on either side fits. */
  predicate Widest(text: Markup, left: nat, right: nat)
    requires left <= right < |text|
  {
    (left > 0 ==> !Fits(text, left - 1, right + 1)) && (right + 1 < |text| ==> !Fits(text, left, right + 2))
  }

  /** The window holds the points of the match, whenever these would fit alone with their ellipses. */
  ghost predicate HoldsMatch(text: Markup, left: nat, right: nat, index: nat, length: nat) {
    forall a: nat, b: nat :: Touched(text, a, b, index, length) && Fits(text, a, b) ==> left <= a && b <= right + 1
  }

  /** Twice the context before the window, and behind it, counted from the middle of the match. */
  function LeftContext(text: Markup, from: nat, center: nat): int
    requires from <= |text|
  {
    center - 2 * Units(text[..from])
  }

  function RightContext(text: Markup, until: nat, center: nat): int
    requires until < |text|
  {
    2 * Units(text[..until + 1]) - center
  }

  predicate LeftBlocked(text: Markup, from: nat, until: nat)
    requires from <= until < |text|
  {
    from > 0 && !Fits(text, from - 1, until + 1)
  }

  predicate RightBlocked(text: Markup, from: nat, until: nat)
    requires from <= until < |text|
  {
    until + 1 < |text| && !Fits(text, from, until + 2)
  }

  ghost predicate SomeLeftBlocked(text: Markup, low: nat, high: nat, until: nat)
    requires high <= until < |text|
  {
    exists f :: low <= f <= high && LeftBlocked(text, f, until)
  }

  ghost predicate SomeRightBlocked(text: Markup, from: nat, low: nat, high: nat)
    requires from <= low && high < |text|
  {
    exists u :: low <= u <= high && RightBlocked(text, from, u)
  }

  /**
   The window grew towards the side with less context: past its start on one side only while that
   side had less of it (or as much, on the left), or the other side ended or could not grow.
   */
  ghost predicate Balanced(text: Markup, start: nat, end: nat, from: nat, until: nat, center: nat)
    requires from <= start && end <= until < |text| && start <= end
  {
    && (from < start ==>
          || until + 1 == |text| || LeftContext(text, from + 1, center) <= RightContext(text, until, center)
          || SomeRightBlocked(text, from + 1, end, until))
    && (until > end ==>
          || from == 0 || RightContext(text, until - 1, center) < LeftContext(text, from, center)
          || SomeLeftBlocked(text, from, start, until - 1))
  }

  /** Where the window begins: the points of the match if they fit, else the point at its middle. */
  ghost predicate Seed(text: Markup, start: nat, end: nat, index: nat, length: nat)
    requires start <= end < |text|
  {
    || (Touched(text, start, end + 1, index, length) && Fits(text, start, end + 1))
    || ((forall a: nat, b: nat :: Touched(text, a, b, index, length) ==> !Fits(text, a, b))
        && start == end
        && (start > 0 ==> 2 * Units(text[..start]) < 2 * index + length)
        && (start + 1 < |text| ==> 2 * Units(text[..start + 1]) >= 2 * index + length))
  }

  /** The window was grown in balance from where it begins. */
  ghost predicate Centered(text: Markup, left: nat, right: nat, index: nat, length: nat)
    requires left <= right < |text|
  {
    exists start, end :: left <= start <= end <= right && Seed(text, start, end, index, length)
                         && Balanced(text, start, end, left, right, 2 * index + length)
  }

  predicate Short(text: Markup) {
    Units(text) <= MAX_UNITS && Bytes(text) <= MAX_BYTES
  }

  /**
   centeredSnippet. A text that fits is returned whole; otherwise left and right are the first and
   last point of the window, which fits with its ellipses, holds the match if that is possible,
   cannot be widened, and was grown in balance around the middle of the match.
   */
  method CenteredSnippet(text: Markup, index: nat, length: nat) returns (r: Markup, ghost left: nat, ghost right: nat)
    requires index + length <= Units(text)
    ensures Units(r) <= MAX_UNITS && Bytes(r) <= MAX_BYTES
    ensures Short(text) ==> r == text
    ensures !Short(text) ==> left <= right < |text| && r == Rendered(text, left, right + 1)
                             && Widest(text, left, right) && HoldsMatch(text, left, right, index, length)
                             && Centered(text, left, right, index, length)
  {
    hide Centered, HoldsMatch, Widest;
    if Units(text) <= MAX_UNITS && Bytes(text) <= MAX_BYTES {
      return text, 0, 0;
    }
    var from, until := WindowAround(text, index, length);
    left, right := from, until;
    r := Rendered(text, from, until + 1);
    RenderedFits(text, from, until + 1);
  }

  method WindowAround(text: Markup, index: nat, length: nat) returns (from: nat, until: nat)
    requires text != []
    ensures from <= until < |text| && Fits(text, from, until + 1)
    ensures Widest(text, from, until) && HoldsMatch(text, from, until, index, length) && Centered(text, from, until, index, length)
  {
    hide Units, Bytes, Fits, PrefixSums, Touched, Seed, Balanced;
    var units := Sums(text, UnitsOf);
    var bytes := Sums(text, BytesOf);
    SumsLength(units, text, UnitsOf);
    var first, last := MatchedPoints(units, index, length);
    MatchIsTouched(text, units, first, last, index, length);
    var fitting := FitsBySums(text, units, bytes, first, last);
    var start, end := first, last;
    if !fitting {
      start := FirstEnding(units, 2 * index + length, false);
      end := start;
      OnePointFits(text, start);
    }
    from, until := Widen(text, units, bytes, start, end, 2 * index + length);
    WindowHolds(text, first, last, from, until, index, length);
    WindowSeeds(text, units, first, last, start, end, index, length);
  }

  lemma WindowSeeds(text: Markup, ends: seq<nat>, first: nat, last: nat, start: nat, end: nat, index: nat, length: nat)
    requires PrefixSums(ends, text, |text|, UnitsOf) && start <= end < |text|
    requires Touched(text, first, last + 1, index, length)
    requires Fits(text, first, last + 1) ==> start == first && end == last
    requires !Fits(text, first, last + 1) ==>
               start == end && (forall i :: 1 <= i <= start ==> 2 * ends[i] < 2 * index + length)
               && (start + 1 < |text| ==> 2 * ends[start + 1] >= 2 * index + length)
    ensures Seed(text, start, end, index, length)
  {
    if !Fits(text, first, last + 1) {
      forall a: nat, b: nat | Touched(text, a, b, index, length)
        ensures !Fits(text, a, b)
      {
        TouchedOnce(text, a, b, first, last + 1, index, length);
      }
    }
    hide Fits, Touched;
  }

  lemma WindowHolds(text: Markup, first: nat, last: nat, from: nat, until: nat, index: nat, length: nat)
    requires Touched(text, first, last + 1, index, length)
    requires Fits(text, first, last + 1) ==> from <= first && last <= until
    ensures HoldsMatch(text, from, until, index, length)
  {
    forall a: nat, b: nat | Touched(text, a, b, index, length) && Fits(text, a, b)
      ensures from <= a && b <= until + 1
    {
      TouchedOnce(text, a, b, first, last + 1, index, length);
    }
    hide Units, Bytes;
  }

  lemma SumsLength(sums: seq<nat>, text: Markup, size: CodePoint -> nat)
    requires PrefixSums(sums, text, |text|, size)
    ensures |sums| == |text| + 1
  {
  }

  lemma RenderedFits(text: Markup, from: nat, until: nat)
    requires from < until <= |text|
    ensures Fits(text, from, until) <==> Units(Rendered(text, from, until)) <= MAX_UNITS && Bytes(Rendered(text, from, until)) <= MAX_BYTES
  {
  }

  /** The loop that grows the window towards the side with less context, while either side fits. */
  method Widen(text: Markup, units: seq<nat>, bytes: seq<nat>, start: nat, end: nat, center: nat) returns (from: nat, until: nat)
    requires PrefixSums(units, text, |text|, UnitsOf) && PrefixSums(bytes, text, |text|, BytesOf)
    requires start <= end < |text| && Fits(text, start, end + 1)
    ensures from <= start && end <= until < |text| && Fits(text, from, until + 1)
    ensures Widest(text, from, until) && Balanced(text, start, end, from, until, center)
  {
    hide Fits, Balanced;
    from, until := start, end;
    NotGrown(text, start, end, center);
    while from > 0 || until < |text| - 1
      invariant from <= start && end <= until < |text| && Fits(text, from, until + 1)
      invariant Balanced(text, start, end, from, until, center)
      decreases from + (|text| - until)
    {
      var canLeft, canRight := false, false;
      if from > 0 {
        canLeft := FitsBySums(text, units, bytes, from - 1, until);
      }
      if until < |text| - 1 {
        canRight := FitsBySums(text, units, bytes, from, until + 1);
      }
      if !canLeft && !canRight {
        break;
      }
      if canLeft && (!canRight || center - 2 * units[from] <= 2 * units[until + 1] - center) {
        GrownLeft(text, start, end, from, until, center);
        from := from - 1;
      } else {
        GrownRight(text, start, end, from, until, center);
        until := until + 1;
      }
    }
  }

  lemma NotGrown(text: Markup, start: nat, end: nat, center: nat)
    requires start <= end < |text|
    ensures Balanced(text, start, end, start, end, center)
  {
  }

  lemma GrownLeft(text: Markup, start: nat, end: nat, from: nat, until: nat, center: nat)
    requires start <= end && 0 < from <= start && end <= until < |text| && Balanced(text, start, end, from, until, center)
    requires until + 1 == |text| || RightBlocked(text, from, until)
             || LeftContext(text, from, center) <= RightContext(text, until, center)
    ensures Balanced(text, start, end, from - 1, until, center)
  {
    hide LeftBlocked, RightBlocked;
    UnitsGrow(text, from - 1, from);
    hide Units;
  }

  lemma GrownRight(text: Markup, start: nat, end: nat, from: nat, until: nat, center: nat)
    requires start <= end && from <= start && end <= until && until + 1 < |text| && Balanced(text, start, end, from, until, center)
    requires from == 0 || LeftBlocked(text, from, until)
             || RightContext(text, until, center) < LeftContext(text, from, center)
    ensures Balanced(text, start, end, from, until + 1, center)
  {
    hide LeftBlocked, RightBlocked;
    UnitsGrow(text, until + 1, until + 2);
    hide Units;
  }

  lemma {:induction false} UnitsGrow(text: Markup, i: nat, j: nat)
    requires i <= j <= |text|
    ensures Units(text[..i]) + (j - i) <= Units(text[..j])
    decreases j
  {
    if i < j {
      UnitsGrow(text, i, j - 1);
      assert text[..j][..j - 1] == text[..j - 1];
    }
  }

  /** The match determines the points it touches. */
  lemma TouchedOnce(text: Markup, a: nat, b: nat, c: nat, d: nat, index: nat, length: nat)
    requires Touched(text, a, b, index, length) && Touched(text, c, d, index, length)
    ensures a == c && b == d
  {
    hide Units;
    UnitsGrow(text, if a < c then a + 1 else a, if a < c then c else a);
    UnitsGrow(text, if c < a then c + 1 else c, if c < a then a else c);
    UnitsGrow(text, if b < d then b else d - 1, if b < d then d - 1 else d - 1);
    UnitsGrow(text, if d < b then d else b - 1, if d < b then b - 1 else b - 1);
  }

  /** from..until are exactly the points that the match of this length at this index touches; of an empty match, the point there. */
  ghost predicate Touched(text: Markup, from: nat, until: nat, index: nat, length: nat) {
    && from < until <= |text|
    && Units(text[..from]) <= index
    && (from + 1 < |text| ==> Units(text[..from + 1]) > index)
    && (until < |text| ==> Units(text[..until]) >= index + length)
    && (until > from + 1 ==> Units(text[..until - 1]) < index + length)
  }

  lemma MatchIsTouched(text: Markup, ends: seq<nat>, left: nat, right: nat, index: nat, length: nat)
    requires PrefixSums(ends, text, |text|, UnitsOf) && left <= right < |text|
    requires forall i :: 1 <= i <= left ==> ends[i] <= index
    requires left + 2 < |ends| ==> ends[left + 1] > index
    requires right + 2 < |ends| ==> ends[right + 1] >= index + length
    requires right > left ==> ends[right] < index + length
    ensures Touched(text, left, right + 1, index, length)
  {
    assert ends[0] == 0;
  }

  /** fits, computed from the prefix sums. */
  method FitsBySums(text: Markup, units: seq<nat>, bytes: seq<nat>, from: nat, last: nat) returns (fits: bool)
    requires PrefixSums(units, text, |text|, UnitsOf) && PrefixSums(bytes, text, |text|, BytesOf) && from <= last < |text|
    ensures fits == Fits(text, from, last + 1)
  {
    var edgeUnits := (if from > 0 then 1 else 0) + (if last < |text| - 1 then 1 else 0);
    var edgeBytes := (if from > 0 then 3 else 0) + (if last < |text| - 1 then 3 else 0);
    RenderedSize(text, from, last + 1);
    fits := units[last + 1] - units[from] + edgeUnits <= MAX_UNITS && bytes[last + 1] - bytes[from] + edgeBytes <= MAX_BYTES;
  }
}
