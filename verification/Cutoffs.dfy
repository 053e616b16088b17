/** Where a long README is cut: at the latest useful section, else the latest block, else the latest line. */
module Cutoffs {
  import opened Markdown
  import opened Projection

  datatype Kind = Section | Block | Line

  /** The n-th line is a heading outside every fence, behind another heading. */
  ghost predicate SectionAt(lines: seq<Markup>, n: nat)
    requires 1 <= n <= |lines|
  {
    HeadingAt(lines, n) && exists m :: 1 <= m < n && HeadingAt(lines, m)
  }

  /** No fence is open after the n-th line. */
  predicate LineAt(lines: seq<Markup>, n: nat)
    requires 1 <= n <= |lines|
  {
    FenceAfter(lines[..n]).None?
  }

  predicate TabsAndSpaces(content: Markup) {
    forall c <- content :: c == 9 || c == 32
  }

  /** The n-th line closes a fence, or is blank outside every fence. */
  predicate BlockAt(lines: seq<Markup>, n: nat)
    requires 1 <= n <= |lines|
  {
    LineAt(lines, n) && (FenceAfter(lines[..n - 1]).Some? || TabsAndSpaces(Content(lines[n - 1])))
  }

  /** The text may be cut at b: where a section begins, or where a complete line or block ends. */
  ghost predicate CutAt(text: Markup, kind: Kind, b: nat) {
    var lines := Lines(text);
    match kind
    case Section => exists n :: 1 <= n <= |lines| && SectionAt(lines, n) && b == Offset(lines, n - 1)
    case Block => exists n :: 1 <= n < |lines| && BlockAt(lines, n) && b == Offset(lines, n)
    case Line => exists n :: 1 <= n < |lines| && LineAt(lines, n) && b == Offset(lines, n)
  }

  lemma {:induction false} HeadingsCount(lines: seq<Markup>, n: nat)
    requires n <= |lines|
    ensures Headings(lines, n) >= 1 <==> exists m :: 1 <= m <= n && HeadingAt(lines, m)
    decreases n
  {
    hide HeadingAt;
    if n > 0 {
      HeadingsCount(lines, n - 1);
      assert Headings(lines, n) == Headings(lines, n - 1) + if HeadingAt(lines, n) then 1 else 0;
    }
  }

  /** The last of the values is the largest. */
  ghost predicate EndsHighest(values: seq<nat>, bound: nat) {
    forall b <- values :: b <= bound && b <= values[|values| - 1]
  }

  lemma EndsHigher(values: seq<nat>, bound: nat, more: seq<nat>, bound': nat)
    requires EndsHighest(values, bound) && bound <= bound'
    requires more == [] || (|more| == 1 && bound <= more[0] <= bound')
    ensures EndsHighest(values + more, bound')
  {
  }

  lemma OffsetRises(lines: seq<Markup>, n: nat)
    requires 1 <= n <= |lines|
    ensures Offset(lines, n - 1) <= Offset(lines, n)
  {
  }

  /** The values are the places of the first n lines that hold. */
  ghost predicate Collected(values: seq<nat>, lines: seq<Markup>, n: nat, kind: Kind)
    requires n <= |lines|
  {
    match kind
    case Section => forall b :: b in values <==> exists k :: 1 <= k <= n && SectionAt(lines, k) && b == Offset(lines, k - 1)
    case Block => forall b :: b in values <==> exists k :: 1 <= k <= n && k < |lines| && BlockAt(lines, k) && b == Offset(lines, k)
    case Line => forall b :: b in values <==> exists k :: 1 <= k <= n && k < |lines| && LineAt(lines, k) && b == Offset(lines, k)
  }

  lemma CollectsOneMore(values: seq<nat>, lines: seq<Markup>, n: nat, kind: Kind, more: seq<nat>)
    requires 1 <= n <= |lines| && Collected(values, lines, n - 1, kind)
    requires match kind
             case Section => more == if SectionAt(lines, n) then [Offset(lines, n - 1)] else []
             case Block => more == if n < |lines| && BlockAt(lines, n) then [Offset(lines, n)] else []
             case Line => more == if n < |lines| && LineAt(lines, n) then [Offset(lines, n)] else []
    ensures Collected(values + more, lines, n, kind)
  {
    hide SectionAt, BlockAt, LineAt, Offset;
  }

  lemma LineStep(lines: seq<Markup>, n: nat)
    requires 1 <= n <= |lines|
    ensures LineBoundaries(lines, n) == LineBoundaries(lines, n - 1) + if n < |lines| && LineAt(lines, n) then [Offset(lines, n)] else []
  {
    hide FenceAfter, Offset;
  }

  lemma {:induction false} LineValues(lines: seq<Markup>, n: nat)
    requires n <= |lines|
    ensures EndsHighest(LineBoundaries(lines, n), Offset(lines, n)) && Collected(LineBoundaries(lines, n), lines, n, Line)
    decreases n
  {
    if n > 0 {
      LineValues(lines, n - 1);
      OffsetRises(lines, n);
      LineStep(lines, n);
      hide LineBoundaries, LineAt, Collected, EndsHighest, Offset;
      var more := if n < |lines| && LineAt(lines, n) then [Offset(lines, n)] else [];
      EndsHigher(LineBoundaries(lines, n - 1), Offset(lines, n - 1), more, Offset(lines, n));
      CollectsOneMore(LineBoundaries(lines, n - 1), lines, n, Line, more);
    }
  }

  lemma BlockStep(lines: seq<Markup>, n: nat)
    requires 1 <= n <= |lines|
    ensures BlockBoundaries(lines, n) == BlockBoundaries(lines, n - 1) + if n < |lines| && BlockAt(lines, n) then [Offset(lines, n)] else []
  {
    hide FenceAfter, Content, Offset;
  }

  lemma {:induction false} BlockValues(lines: seq<Markup>, n: nat)
    requires n <= |lines|
    ensures EndsHighest(BlockBoundaries(lines, n), Offset(lines, n)) && Collected(BlockBoundaries(lines, n), lines, n, Block)
    decreases n
  {
    if n > 0 {
      BlockValues(lines, n - 1);
      OffsetRises(lines, n);
      BlockStep(lines, n);
      hide BlockBoundaries, BlockAt, Collected, EndsHighest, Offset;
      var more := if n < |lines| && BlockAt(lines, n) then [Offset(lines, n)] else [];
      EndsHigher(BlockBoundaries(lines, n - 1), Offset(lines, n - 1), more, Offset(lines, n));
      CollectsOneMore(BlockBoundaries(lines, n - 1), lines, n, Block, more);
    }
  }

  lemma SectionStep(lines: seq<Markup>, n: nat)
    requires 1 <= n <= |lines|
    ensures SectionBoundaries(lines, n) == SectionBoundaries(lines, n - 1) + if SectionAt(lines, n) then [Offset(lines, n - 1)] else []
  {
    hide HeadingAt, Headings, Offset;
    HeadingsCount(lines, n - 1);
    assert SectionAt(lines, n) <==> HeadingAt(lines, n) && Headings(lines, n - 1) >= 1;
  }

  lemma {:induction false} SectionValues(lines: seq<Markup>, n: nat)
    requires n <= |lines|
    ensures EndsHighest(SectionBoundaries(lines, n), Offset(lines, n)) && Collected(SectionBoundaries(lines, n), lines, n, Section)
    decreases n
  {
    if n > 0 {
      SectionValues(lines, n - 1);
      OffsetRises(lines, n);
      SectionStep(lines, n);
      hide SectionBoundaries, SectionAt, Collected, EndsHighest, Offset;
      var more := if SectionAt(lines, n) then [Offset(lines, n - 1)] else [];
      EndsHigher(SectionBoundaries(lines, n - 1), Offset(lines, n - 1), more, Offset(lines, n));
      CollectsOneMore(SectionBoundaries(lines, n - 1), lines, n, Section, more);
    }
  }

  /** The text before b is more than white space. */
  predicate Useful(text: Markup, b: nat) {
    b <= |text| && exists c <- text[..b] :: !White(c)
  }

  lemma UsefulGrows(text: Markup, b: nat, last: nat)
    requires b <= last <= |text| && Useful(text, b)
    ensures Useful(text, last)
  {
    var c :| c in text[..b] && !White(c);
    assert c in text[..last];
  }

  lemma LatestExactly(text: Markup, values: seq<nat>)
    requires EndsHighest(values, |text|)
    ensures Latest(text, values).None? <==> forall b <- values :: !Useful(text, b)
    ensures Latest(text, values).Some? ==>
              var cut := Latest(text, values).value;
              cut in values && Useful(text, cut) && forall b <- values :: b <= cut
  {
    hide White;
    if values != [] {
      var last := values[|values| - 1];
      assert last in values;
      forall b <- values | Useful(text, b)
        ensures Useful(text, last)
      {
        UsefulGrows(text, b, last);
      }
    }
  }

  function Values(text: Markup, kind: Kind): seq<nat> {
    match kind
    case Section => BoundariesOf(text).section
    case Block => BoundariesOf(text).block
    case Line => BoundariesOf(text).line
  }

  lemma ValuesAreCuts(text: Markup, kind: Kind)
    ensures EndsHighest(Values(text, kind), |text|) && forall b :: b in Values(text, kind) <==> CutAt(text, kind, b)
  {
    var lines := Lines(text);
    LinesCover(text);
    LineValues(lines, |lines|);
    BlockValues(lines, |lines|);
    SectionValues(lines, |lines|);
    hide LineAt, BlockAt, SectionAt, Offset, Lines, LineBoundaries, BlockBoundaries, SectionBoundaries, OpenFence;
  }

  /** b is the latest place of its kind, and useful. */
  ghost predicate IsLatest(text: Markup, kind: Kind, b: nat) {
    CutAt(text, kind, b) && Useful(text, b) && forall other: nat :: CutAt(text, kind, other) ==> other <= b
  }

  ghost predicate HasUseful(text: Markup, kind: Kind) {
    exists b: nat :: CutAt(text, kind, b) && Useful(text, b)
  }

  lemma LatestOfKind(text: Markup, kind: Kind)
    ensures var latest := Latest(text, Values(text, kind));
            if HasUseful(text, kind) then latest.Some? && IsLatest(text, kind, latest.value) else latest.None?
  {
    ValuesAreCuts(text, kind);
    hide Values, CutAt, Useful, Latest;
    LatestExactly(text, Values(text, kind));
  }

  /**
   A section that has something before it is preferred to every block and line, a block to every
   line, and of its kind the latest is taken; without any of these there is no cutoff.
   */
  lemma CutoffExactly(text: Markup)
    ensures var cutoff := Cutoff(text);
            if HasUseful(text, Section) then cutoff.Some? && IsLatest(text, Section, cutoff.value)
            else if HasUseful(text, Block) then cutoff.Some? && IsLatest(text, Block, cutoff.value)
            else if HasUseful(text, Line) then cutoff.Some? && IsLatest(text, Line, cutoff.value)
            else cutoff.None?
  {
    LatestOfKind(text, Section);
    LatestOfKind(text, Block);
    LatestOfKind(text, Line);
    hide HasUseful, IsLatest, BoundariesOf, Latest;
  }
}
