/**
 The bounded projection of a README: cut at the latest useful boundary, or wrapped when one
 fence swallows everything, with a marker at the end. It fits its budget and leaves no fence open.
 */
module Projection {
  import opened Wrappers
  import opened Markdown

  function CodePoints(s: string): (r: Markup)
    ensures |r| == |s| && forall i :: 0 <= i < |s| ==> r[i] == s[i] as int as CodePoint
  {
    seq(|s|, i requires 0 <= i < |s| => s[i] as int as CodePoint)
  }

  const MARKER_LABEL := "> **qq-index truncation:** This "
  const MARKER_REASON := "injected excerpt is incomplete. "
  const MARKER_ADVICE := "Read the full [README.md](README.md)."

  const MARKER: Markup := CodePoints(MARKER_LABEL + MARKER_REASON + MARKER_ADVICE)

  /** The marker between blank lines, as it is appended to a body. */
  function MarkerBudget(): nat {
    |MARKER| + 3
  }

  datatype ProjectionError = NoRoomForMarker | BudgetExceeded

  // ---------- Boundaries ----------

  /** Where line n begins. */
  function Offset(lines: seq<Markup>, n: nat): nat
    requires n <= |lines|
    decreases n
  {
    if n == 0 then 0 else Offset(lines, n - 1) + |lines[n - 1]| + if n < |lines| then 1 else 0
  }

  predicate Blank(content: Markup) {
    forall c <- content :: c == TAB || c == SPACE
  }

  /** Up to three spaces, one to six hashes, and then white space or the end. */
  predicate Heading(content: Markup) {
    var indent := Leading(content, SPACE);
    var hashes := Leading(content[indent..], HASH);
    && indent <= 3 && 1 <= hashes <= 6
    && (indent + hashes < |content| ==> content[indent + hashes] == TAB || content[indent + hashes] == SPACE)
  }

  /** Line n - 1 is a heading outside every fence. */
  predicate HeadingAt(lines: seq<Markup>, n: nat)
    requires 1 <= n <= |lines|
  {
    FenceAfter(lines[..n - 1]).None? && Heading(Content(lines[n - 1]))
  }

  function Headings(lines: seq<Markup>, n: nat): nat
    requires n <= |lines|
    decreases n
  {
    if n == 0 then 0 else Headings(lines, n - 1) + if HeadingAt(lines, n) then 1 else 0
  }

  /** The ends of the complete lines after which no fence is open. */
  function LineBoundaries(lines: seq<Markup>, n: nat): seq<nat>
    requires n <= |lines|
    decreases n
  {
    if n == 0 then []
    else LineBoundaries(lines, n - 1) + if n < |lines| && FenceAfter(lines[..n]).None? then [Offset(lines, n)] else []
  }

  /** Of these, the ends of closed fences and of blank lines. */
  function BlockBoundaries(lines: seq<Markup>, n: nat): seq<nat>
    requires n <= |lines|
    decreases n
  {
    if n == 0 then []
    else
      BlockBoundaries(lines, n - 1)
      + if n < |lines| && FenceAfter(lines[..n]).None? && (FenceAfter(lines[..n - 1]).Some? || Blank(Content(lines[n - 1])))
        then [Offset(lines, n)] else []
  }

  /** The beginnings of the headings but the first. */
  function SectionBoundaries(lines: seq<Markup>, n: nat): seq<nat>
    requires n <= |lines|
    decreases n
  {
    if n == 0 then []
    else SectionBoundaries(lines, n - 1) + if HeadingAt(lines, n) && Headings(lines, n - 1) >= 1 then [Offset(lines, n - 1)] else []
  }

  datatype Boundaries = Boundaries(block: seq<nat>, line: seq<nat>, section: seq<nat>, openFence: Option<Fence>)

  function BoundariesOf(text: Markup): Boundaries {
    var lines := Lines(text);
    Boundaries(BlockBoundaries(lines, |lines|), LineBoundaries(lines, |lines|), SectionBoundaries(lines, |lines|), OpenFence(text))
  }

  /** markdownBoundaries */
  method MarkdownBoundaries(text: Markup) returns (r: Boundaries)
    ensures r == BoundariesOf(text)
  {
    hide FenceStep, Heading, Blank;
    var lines := Lines(text);
    var section: seq<nat>, block: seq<nat>, line: seq<nat> := [], [], [];
    var offset := 0;
    var openFence: Option<Fence> := None;
    var headings := 0;
    for index := 0 to |lines|
      invariant offset == Offset(lines, index) && openFence == FenceAfter(lines[..index]) && headings == Headings(lines, index)
      invariant line == LineBoundaries(lines, index) && block == BlockBoundaries(lines, index) && section == SectionBoundaries(lines, index)
    {
      var completeLine := index + 1 < |lines|;
      var content := Content(lines[index]);
      var end := offset + |lines[index]| + if completeLine then 1 else 0;
      FenceOneMore(lines, index);
      if openFence.Some? {
        if ClosesFence(content, openFence.value) {
          openFence := None;
          if completeLine {
            line, block := line + [end], block + [end];
          }
        }
      } else {
        if Heading(content) {
          headings := headings + 1;
          if headings > 1 {
            section := section + [offset];
          }
        }
        openFence := FenceDelimiter(content);
        if openFence.None? && completeLine {
          line := line + [end];
          if Blank(content) {
            block := block + [end];
          }
        }
      }
      offset := end;
    }
    assert lines[..|lines|] == lines;
    return Boundaries(block, line, section, openFence);
  }

  lemma FenceOneMore(lines: seq<Markup>, n: nat)
    requires n < |lines|
    ensures FenceAfter(lines[..n + 1]) == FenceStep(FenceAfter(lines[..n]), lines[n])
    ensures FenceStep(FenceAfter(lines[..n]), lines[n])
         == match FenceAfter(lines[..n])
            case Some(fence) => if ClosesFence(Content(lines[n]), fence) then None else Some(fence)
            case None => FenceDelimiter(Content(lines[n]))
  {
    assert lines[..n + 1][..n] == lines[..n];
  }

  // ---------- A boundary is a place outside every fence ----------

  /** The text before b ends in a line feed, and no fence is open there. */
  ghost predicate SafeBoundary(text: Markup, b: nat) {
    1 <= b <= |text| && text[b - 1] == LF && OpenFence(text[..b - 1]).None?
  }

  lemma {:induction false} SameOffset(a: seq<Markup>, b: seq<Markup>, n: nat)
    requires n < |a| <= |b| && a[..n] == b[..n]
    ensures Offset(a, n) == Offset(b, n)
    decreases n
  {
    if n > 0 {
      assert a[..n][..n - 1] == a[..n - 1] && b[..n][..n - 1] == b[..n - 1];
      assert a[n - 1] == a[..n][n - 1] == b[n - 1];
      SameOffset(a, b, n - 1);
    }
  }

  /** One more character leaves the lines before the last alone. */
  lemma FrontStays(lines: seq<Markup>, c: CodePoint, n: nat)
    requires n < |lines|
    ensures n < |AddCharacter(lines, c)| && AddCharacter(lines, c)[..n] == lines[..n]
    ensures Offset(AddCharacter(lines, c), n) == Offset(lines, n)
  {
    assert AddCharacter(lines, c)[..n] == lines[..n];
    SameOffset(lines, AddCharacter(lines, c), n);
  }

  lemma OffsetOfEnd(lines: seq<Markup>, c: CodePoint)
    requires lines != []
    ensures var after := AddCharacter(lines, c); Offset(after, |after|) == Offset(lines, |lines|) + 1
    ensures c == LF ==> Offset(AddCharacter(lines, c), |lines|) == Offset(lines, |lines|) + 1
  {
    FrontStays(lines, c, |lines| - 1);
  }

  lemma {:induction false} LinesCover(text: Markup)
    ensures Offset(Lines(text), |Lines(text)|) == |text|
    decreases |text|
  {
    if text != [] {
      hide AddCharacter, Offset;
      LinesCover(text[..|text| - 1]);
      OffsetOfEnd(Lines(text[..|text| - 1]), text[|text| - 1]);
    }
  }

  lemma AtMostOneMore(lines: seq<Markup>, c: CodePoint)
    requires lines != []
    ensures c == LF ==> AddCharacter(lines, c) == lines + [[]]
    ensures c != LF ==> |AddCharacter(lines, c)| == |lines|
  {
  }

  lemma {:induction false} OffsetSplits(text: Markup, n: nat)
    requires 1 <= n < |Lines(text)|
    ensures var b := Offset(Lines(text), n);
            1 <= b <= |text| && text[b - 1] == LF && Lines(text[..b - 1]) == Lines(text)[..n]
    decreases |text|
  {
    if text != [] {
      var front, last := text[..|text| - 1], text[|text| - 1];
      var before := Lines(front);
      AtMostOneMore(before, last);
      hide Offset, AddCharacter;
      if n < |before| {
        OffsetSplits(front, n);
        FrontStays(before, last, n);
        var b := Offset(before, n);
        hide Lines;
        assert text[..b - 1] == front[..b - 1];
      } else {
        LinesCover(front);
        OffsetOfEnd(before, last);
        hide Lines;
        assert (before + [[]])[..n] == before;
      }
    }
  }

  lemma BoundaryIsSafe(text: Markup, n: nat)
    requires 1 <= n < |Lines(text)| && FenceAfter(Lines(text)[..n]).None?
    ensures SafeBoundary(text, Offset(Lines(text), n))
  {
    OffsetSplits(text, n);
  }

  lemma {:induction false} LinesAreSafe(text: Markup, n: nat)
    requires n <= |Lines(text)|
    ensures forall b <- LineBoundaries(Lines(text), n) :: SafeBoundary(text, b)
    decreases n
  {
    if n > 0 {
      hide FenceAfter, SafeBoundary, Blank, Offset, Lines;
      LinesAreSafe(text, n - 1);
      if n < |Lines(text)| && FenceAfter(Lines(text)[..n]).None? {
        BoundaryIsSafe(text, n);
      }
    }
  }

  lemma {:induction false} BlocksAreLines(lines: seq<Markup>, n: nat)
    requires n <= |lines|
    ensures forall b <- BlockBoundaries(lines, n) :: b in LineBoundaries(lines, n)
    decreases n
  {
    if n > 0 {
      hide FenceAfter, Blank, Offset;
      BlocksAreLines(lines, n - 1);
    }
  }

  lemma {:induction false} SectionsAreSafe(text: Markup, n: nat)
    requires n <= |Lines(text)|
    ensures forall b <- SectionBoundaries(Lines(text), n) :: SafeBoundary(text, b)
    decreases n
  {
    if n > 0 {
      hide FenceAfter, SafeBoundary, Heading, Offset, Lines;
      SectionsAreSafe(text, n - 1);
      if HeadingAt(Lines(text), n) && Headings(Lines(text), n - 1) >= 1 {
        BoundaryIsSafe(text, n - 1);
      }
    }
  }

  lemma BoundariesAreSafe(text: Markup)
    ensures var b := BoundariesOf(text);
            forall x :: x in b.line || x in b.block || x in b.section ==> SafeBoundary(text, x)
  {
    hide SafeBoundary, LineBoundaries, BlockBoundaries, SectionBoundaries, OpenFence;
    LinesAreSafe(text, |Lines(text)|);
    BlocksAreLines(Lines(text), |Lines(text)|);
    SectionsAreSafe(text, |Lines(text)|);
  }

  // ---------- The cutoff ----------

  /** latestNonWhitespaceBoundary */
  function Latest(text: Markup, values: seq<nat>): Option<nat> {
    if values == [] then None
    else
      var b := values[|values| - 1];
      if b > |text| || forall c <- text[..b] :: White(c) then None else Some(b)
  }

  function OrElse(a: Option<nat>, b: Option<nat>): Option<nat> {
    if a.Some? then a else b
  }

  /** The latest section, else the latest block, else the latest line. */
  function Cutoff(text: Markup): Option<nat> {
    var b := BoundariesOf(text);
    OrElse(Latest(text, b.section), OrElse(Latest(text, b.block), Latest(text, b.line)))
  }

  lemma CutoffIsSafe(text: Markup)
    ensures Cutoff(text).Some? ==> SafeBoundary(text, Cutoff(text).value)
  {
    BoundariesAreSafe(text);
    hide SafeBoundary, BoundariesOf;
  }

  // ---------- The fallback ----------

  function Wrapper(fence: Fence): CodePoint {
    if fence.character == TICK then TILDE else TICK
  }

  function Opening(w: CodePoint): Markup {
    [w, w, w, 116, 101, 120, 116, LF]
  }

  function Closing(w: CodePoint): Markup {
    [LF, w, w, w, LF]
  }

  const INDENT: Markup := [SPACE, SPACE, SPACE, SPACE]

  predicate Indented(line: Markup) {
    |line| >= 4 && line[0] == SPACE && line[1] == SPACE && line[2] == SPACE && line[3] == SPACE
  }

  /** Inside the wrapper: its fence is open, and the last line is still empty or indented. */
  ghost predicate Wrapped(text: Markup, w: CodePoint, atLineStart: bool) {
    var lines := Lines(text);
    && FenceAfter(lines[..|lines| - 1]) == Some(Fence(w, 3))
    && (if atLineStart then lines[|lines| - 1] == [] else Indented(lines[|lines| - 1]))
  }

  lemma IndentedRunsNoFence(line: Markup)
    requires Indented(line)
    ensures FenceRun(Content(line)) == None
  {
    var content := Content(line);
    assert |content| >= 4 && content[0] == SPACE && content[1] == SPACE && content[2] == SPACE && content[3] == SPACE;
    assert Leading(content, SPACE) > 3;
  }

  /** While wrapped, the fence stays open at the end of the text. */
  lemma WrappedIsOpen(text: Markup, w: CodePoint, atLineStart: bool)
    requires Wrapped(text, w, atLineStart)
    ensures OpenFence(text) == Some(Fence(w, 3))
  {
    var lines := Lines(text);
    if !atLineStart {
      IndentedRunsNoFence(lines[|lines| - 1]);
    }
    hide FenceRun;
    assert FenceRun([]) == None by {
      EmptyRunsNoFence();
    }
  }

  lemma EmptyRunsNoFence()
    ensures FenceRun([]) == None && Content([]) == []
  {
  }

  lemma WrappedLine(text: Markup, w: CodePoint, atLineStart: bool)
    requires Wrapped(text, w, atLineStart)
    ensures Wrapped(text + [LF], w, true)
  {
    WrappedIsOpen(text, w, atLineStart);
    LinesAppend(text, LF);
    assert (Lines(text) + [[]])[..|Lines(text)|] == Lines(text);
  }

  lemma WrappedCharacter(text: Markup, w: CodePoint, c: CodePoint)
    requires Wrapped(text, w, false) && c != LF
    ensures Wrapped(text + [c], w, false)
  {
    var lines := Lines(text);
    LinesAppend(text, c);
    assert Lines(text + [c])[..|lines| - 1] == lines[..|lines| - 1];
  }

  lemma WrappedIndent(text: Markup, w: CodePoint)
    requires Wrapped(text, w, true)
    ensures Wrapped(text + INDENT, w, false)
  {
    hide AddCharacter;
    var lines := Lines(text);
    var front := lines[..|lines| - 1];
    assert lines == front + [[]];
    FourSpaces(text, front);
    assert (front + [INDENT])[..|front|] == front;
  }

  lemma FourSpaces(text: Markup, front: seq<Markup>)
    requires Lines(text) == front + [[]]
    ensures Lines(text + INDENT) == front + [INDENT]
  {
    hide Lines;
    var one, two, three: Markup := [SPACE], [SPACE, SPACE], [SPACE, SPACE, SPACE];
    assert text + one == text + [] + [SPACE] && one == [] + [SPACE] && text + [] == text;
    SpaceAppended(text, front, []);
    assert text + two == text + one + [SPACE] && two == one + [SPACE];
    SpaceAppended(text + one, front, one);
    assert text + three == text + two + [SPACE] && three == two + [SPACE];
    SpaceAppended(text + two, front, two);
    assert text + INDENT == text + three + [SPACE] && INDENT == three + [SPACE];
    SpaceAppended(text + three, front, three);
  }

  lemma SpaceAppended(text: Markup, front: seq<Markup>, last: Markup)
    requires Lines(text) == front + [last]
    ensures Lines(text + [SPACE]) == front + [last + [SPACE]]
  {
    hide Lines;
    LinesAppend(text, SPACE);
    assert (front + [last])[..|front|] == front;
  }

  lemma OpeningWraps(w: CodePoint)
    requires w == TICK || w == TILDE
    ensures Wrapped(Opening(w), w, true)
  {
    var line := Opening(w)[..7];
    assert line == [w, w, w, 116, 101, 120, 116] && Opening(w) == line + [LF];
    OneLine(line);
    LinesAppend(line, LF);
    assert ([line] + [[]])[..1] == [line];
    OneLineFence(line);
    OpeningRun(w);
  }

  lemma OpeningRun(w: CodePoint)
    requires w == TICK || w == TILDE
    ensures FenceDelimiter([w, w, w, 116, 101, 120, 116]) == Some(Fence(w, 3))
  {
    var run: Markup, text: Markup := [w, w, w], [116, 101, 120, 116];
    var line := run + text;
    assert line == [w, w, w, 116, 101, 120, 116];
    assert run[1..] == [w, w] && run[1..][1..] == [w] && run[1..][1..][1..] == [];
    assert Leading([w], w) == 1 && Leading([w, w], w) == 2 && Leading(run, w) == 3;
    LeadingOfConcat(run, text, w);
    assert Leading(line, SPACE) == 0 && line[0..] == line && line[3..] == text;
  }

  lemma ClosingRun(w: CodePoint)
    requires w == TICK || w == TILDE
    ensures ClosesFence([w, w, w], Fence(w, 3))
  {
    var run: Markup := [w, w, w];
    assert run[1..] == [w, w] && run[1..][1..] == [w] && run[1..][1..][1..] == [];
    assert Leading([w], w) == 1 && Leading([w, w], w) == 2 && Leading(run, w) == 3;
    assert run[0..] == run && run[3..] == [];
  }

  /** Whatever was wrapped, the closing line closes it. */
  lemma ClosingCloses(text: Markup, w: CodePoint, atLineStart: bool)
    requires Wrapped(text, w, atLineStart) && (w == TICK || w == TILDE)
    ensures OpenFence(text + [LF] + [w, w, w]) == None
    ensures TrimEnd(text + Closing(w)) == text + [LF] + [w, w, w]
  {
    hide Lines, TrimEnd, FenceAfter, Wrapped, ClosesFence;
    WrappedIsOpen(text, w, atLineStart);
    LinesOfConcat(text, [w, w, w]);
    OneLine([w, w, w]);
    ClosingRun(w);
    FenceOfMore(Lines(text), [w, w, w]);
    TrimmedClosing(text, w);
    var line: Markup := [w, w, w];
    assert Content(line) == line;
  }

  lemma TrimmedClosing(text: Markup, w: CodePoint)
    requires w == TICK || w == TILDE
    ensures TrimEnd(text + Closing(w)) == text + [LF] + [w, w, w]
  {
    var trimmed := text + [LF] + [w, w, w];
    assert text + Closing(w) == trimmed + [LF];
    assert (trimmed + [LF])[..|trimmed|] == trimmed;
    assert trimmed[|trimmed| - 1] == w;
  }

  predicate AtLineStart(text: Markup) {
    text == [] || text[|text| - 1] == LF
  }

  /** The text with four spaces before each of its lines. */
  function IndentedText(text: Markup): Markup
    decreases |text|
  {
    if text == [] then []
    else
      var front := text[..|text| - 1];
      IndentedText(front) + (if AtLineStart(front) then INDENT else []) + [text[|text| - 1]]
  }

  /** How much of the source fits, indented, between the 13 code points of the wrapper. */
  function Room(source: Markup, maximum: nat, n: nat): (r: nat)
    requires n <= |source|
    ensures n <= r <= |source|
    ensures r > n ==> 13 + |IndentedText(source[..r])| <= maximum
    ensures r < |source| ==> 13 + |IndentedText(source[..r + 1])| > maximum
    decreases |source| - n
  {
    if n < |source| && 13 + |IndentedText(source[..n + 1])| <= maximum then Room(source, maximum, n + 1) else n
  }

  /** The source stops before a line for which there is room for the indentation and nothing more. */
  predicate Dangling(source: Markup, maximum: nat, n: nat)
    requires n <= |source|
  {
    n < |source| && AtLineStart(source[..n]) && 17 + |IndentedText(source[..n])| <= maximum
  }

  /** What is wrapped: the longest prefix that fits, indented. */
  function Excerpt(source: Markup, maximum: nat): Markup {
    var n := Room(source, maximum, 0);
    IndentedText(source[..n]) + if Dangling(source, maximum, n) then INDENT else []
  }

  function Fallback(source: Markup, maximum: nat, fence: Fence): Markup {
    Opening(Wrapper(fence)) + Excerpt(source, maximum) + Closing(Wrapper(fence))
  }

  lemma IndentedOneMore(source: Markup, n: nat)
    requires n < |source|
    ensures IndentedText(source[..n + 1]) == IndentedText(source[..n]) + (if AtLineStart(source[..n]) then INDENT else []) + [source[n]]
    ensures AtLineStart(source[..n + 1]) <==> source[n] == LF
  {
    assert source[..n + 1][..n] == source[..n];
  }

  /** fencedBlockFallback */
  method FencedBlockFallback(source: Markup, maximum: nat, fence: Fence) returns (output: Markup)
    ensures output == Fallback(source, maximum, fence)
  {
    hide IndentedText;
    var w := Wrapper(fence);
    var body: Markup := [];
    var used := 13;
    var atLineStart := true;
    NothingIndented(source);
    for n := 0 to |source|
      invariant used == 13 + |body| && body == IndentedText(source[..n]) && atLineStart == AtLineStart(source[..n])
      invariant Room(source, maximum, 0) == Room(source, maximum, n)
    {
      IndentedOneMore(source, n);
      if atLineStart {
        if used + 4 > maximum {
          assert body + [] == body;
          return Opening(w) + body + Closing(w);
        }
        body, used, atLineStart := body + INDENT, used + 4, false;
      }
      if used + 1 > maximum {
        assert IndentedText(source[..n]) + [] == IndentedText(source[..n]);
        return Opening(w) + body + Closing(w);
      }
      body, used := body + [source[n]], used + 1;
      if source[n] == LF {
        atLineStart := true;
      }
    }
    assert body + [] == body;
    return Opening(w) + body + Closing(w);
  }

  lemma NothingIndented(source: Markup)
    ensures IndentedText(source[..0]) == [] && AtLineStart(source[..0])
  {
  }

  lemma {:induction false} IndentedStaysWrapped(source: Markup, n: nat, w: CodePoint)
    requires n <= |source| && (w == TICK || w == TILDE)
    ensures Wrapped(Opening(w) + IndentedText(source[..n]), w, AtLineStart(source[..n]))
    decreases n
  {
    hide Wrapped, IndentedText;
    if n == 0 {
      NothingIndented(source);
      OpeningWraps(w);
      assert Opening(w) + [] == Opening(w);
    } else {
      IndentedStaysWrapped(source, n - 1, w);
      IndentedOneMore(source, n - 1);
      var before, c := Opening(w) + IndentedText(source[..n - 1]), source[n - 1];
      if AtLineStart(source[..n - 1]) {
        WrappedIndent(before, w);
        WrappedMore(before + INDENT, w, c);
        assert before + INDENT + [c] == Opening(w) + (IndentedText(source[..n - 1]) + INDENT + [c]);
      } else {
        WrappedMore(before, w, c);
        assert before + [c] == Opening(w) + (IndentedText(source[..n - 1]) + [] + [c]);
      }
    }
  }

  lemma WrappedMore(text: Markup, w: CodePoint, c: CodePoint)
    requires Wrapped(text, w, false)
    ensures Wrapped(text + [c], w, c == LF)
  {
    if c == LF {
      WrappedLine(text, w, false);
    } else {
      WrappedCharacter(text, w, c);
    }
  }

  /** The wrapped excerpt is closed once trimmed, which takes its last line feed, and fits unless even the bare wrapper does not. */
  lemma FallbackFits(source: Markup, maximum: nat, fence: Fence)
    ensures var output := Fallback(source, maximum, fence);
            && OpenFence(TrimEnd(output)) == None && |TrimEnd(output)| == |output| - 1
            && 13 <= |output| && (maximum >= 13 ==> |output| <= maximum) && (maximum < 13 ==> |output| == 13)
  {
    hide Wrapped, TrimEnd, OpenFence, IndentedText;
    var w, n := Wrapper(fence), Room(source, maximum, 0);
    var wrapped := Opening(w) + IndentedText(source[..n]);
    NothingIndented(source);
    IndentedStaysWrapped(source, n, w);
    if Dangling(source, maximum, n) {
      WrappedIndent(wrapped, w);
      ClosingCloses(wrapped + INDENT, w, false);
      assert wrapped + INDENT == Opening(w) + Excerpt(source, maximum);
    } else {
      ClosingCloses(wrapped, w, AtLineStart(source[..n]));
      assert wrapped == Opening(w) + Excerpt(source, maximum);
    }
    if maximum < 13 && n > 0 {
      assert false;
    }
  }

  // ---------- The projection ----------

  /** appendTruncationMarker */
  function WithMarker(body: Markup): Markup {
    var prefix := TrimEnd(body);
    if prefix == [] then MARKER + [LF] else prefix + [LF, LF] + MARKER + [LF]
  }

  lemma LabelIsPlain()
    ensures MARKER_LABEL[0] == '>' && '\n' !in MARKER_LABEL && '\r' !in MARKER_LABEL
  {
  }

  lemma ReasonIsPlain()
    ensures '\n' !in MARKER_REASON && '\r' !in MARKER_REASON
  {
  }

  lemma AdviceIsPlain()
    ensures '\n' !in MARKER_ADVICE && '\r' !in MARKER_ADVICE
  {
  }

  lemma MarkerIsALine()
    ensures LF !in MARKER && CR !in MARKER && |MARKER| > 0 && MARKER[0] == 62
  {
    LabelIsPlain();
    ReasonIsPlain();
    AdviceIsPlain();
    PlainWhenPiecesAre(MARKER_LABEL, MARKER_REASON, MARKER_ADVICE);
  }

  lemma PlainWhenPiecesAre(a: string, b: string, c: string)
    requires |a| > 0 && a[0] == '>'
    requires '\n' !in a && '\n' !in b && '\n' !in c && '\r' !in a && '\r' !in b && '\r' !in c
    ensures var text := CodePoints(a + b + c); LF !in text && CR !in text && |text| > 0 && text[0] == 62
  {
    var text := a + b + c;
    assert forall x :: x in text ==> x in a || x in b || x in c;
    forall i | 0 <= i < |text|
      ensures CodePoints(text)[i] != LF && CodePoints(text)[i] != CR
    {
      assert text[i] in text;
    }
  }

  lemma FenceOfMore(lines: seq<Markup>, line: Markup)
    ensures FenceAfter(lines + [line]) == FenceStep(FenceAfter(lines), line)
  {
    assert (lines + [line])[..|lines|] == lines;
  }

  lemma MarkerStepsNothing(open: Option<Fence>)
    ensures FenceStep(open, MARKER) == open && FenceStep(open, []) == open
  {
    MarkerIsALine();
    assert Leading(MARKER, SPACE) == 0;
    EmptyRunsNoFence();
  }

  /** With the marker appended, a body leaves open what its trimmed text leaves open. */
  lemma MarkerKeepsFence(body: Markup)
    ensures OpenFence(WithMarker(body)) == OpenFence(TrimEnd(body))
  {
    hide FenceStep, FenceAfter, MARKER;
    var prefix := TrimEnd(body);
    var open := OpenFence(prefix);
    MarkerIsALine();
    OneLine(MARKER);
    LinesAppend(MARKER, LF);
    MarkerStepsNothing(None);
    MarkerStepsNothing(open);
    if prefix == [] {
      assert Lines(MARKER + [LF]) == [MARKER] + [[]];
      NoLines();
      FenceOfMore([], MARKER);
      assert [] + [MARKER] == [MARKER];
      FenceOfMore([MARKER], []);
      OneLine([]);
      OneLineFence([]);
    } else {
      var lines := Lines(prefix);
      assert prefix + [LF, LF] + MARKER + [LF] == prefix + [LF] + ([] + [LF] + (MARKER + [LF]));
      LinesOfConcat([], MARKER + [LF]);
      LinesOfConcat(prefix, [] + [LF] + (MARKER + [LF]));
      assert Lines(WithMarker(body)) == lines + [[]] + [MARKER] + [[]];
      FenceOfMore(lines, []);
      FenceOfMore(lines + [[]], MARKER);
      FenceOfMore(lines + [[]] + [MARKER], []);
    }
  }

  lemma NoLines()
    ensures FenceAfter([]) == None
  {
  }

  /** Up to a safe boundary, no fence is open. */
  lemma BoundaryBody(text: Markup, b: nat)
    requires SafeBoundary(text, b)
    ensures OpenFence(text[..b]) == None
  {
    var t := text[..b - 1];
    assert text[..b] == t + [LF];
    LinesAppend(t, LF);
    FenceOfMore(Lines(t), []);
    EmptyRunsNoFence();
  }

  lemma {:induction false} FencesUseTwoCharacters(lines: seq<Markup>)
    ensures FenceAfter(lines).Some? ==> FenceAfter(lines).value.character == TICK || FenceAfter(lines).value.character == TILDE
    decreases |lines|
  {
    if lines != [] {
      FencesUseTwoCharacters(lines[..|lines| - 1]);
    }
  }

  predicate Swallowed(text: Markup) {
    Cutoff(text).None? && OpenFence(text).Some?
  }

  /** The excerpt before the marker: cut at the cutoff, or wrapped if one fence swallows it, or whole. */
  function BodyOf(candidate: Markup): Markup {
    if Cutoff(candidate).Some? then
      CutoffIsSafe(candidate);
      candidate[..Cutoff(candidate).value]
    else if OpenFence(candidate).Some? then Fallback(candidate, |candidate|, OpenFence(candidate).value)
    else candidate
  }

  /** The injected text. */
  function Projected(markdown: Markup, maximum: nat): Result<Markup, ProjectionError> {
    if |markdown| <= maximum then Ok(markdown)
    else if maximum <= MarkerBudget() then Err(NoRoomForMarker)
    else
      var projected := WithMarker(BodyOf(markdown[..maximum - MarkerBudget()]));
      if |projected| > maximum then Err(BudgetExceeded) else Ok(projected)
  }

  /** projectIndex */
  method ProjectIndex(markdown: Markup, maximum: nat) returns (r: Result<Markup, ProjectionError>)
    ensures r == Projected(markdown, maximum)
  {
    if |markdown| <= maximum {
      return Ok(markdown);
    }
    if maximum <= MarkerBudget() {
      return Err(NoRoomForMarker);
    }
    hide MarkerBudget, BoundariesOf, OpenFence, Latest, SafeBoundary, WithMarker, Fallback;
    var bodyBudget := maximum - MarkerBudget();
    var candidate := markdown[..bodyBudget];
    var boundaries := MarkdownBoundaries(candidate);
    OpenFenceOfBoundaries(candidate);
    CutoffIsSafe(candidate);
    var cutoff := OrElse(Latest(candidate, boundaries.section), OrElse(Latest(candidate, boundaries.block), Latest(candidate, boundaries.line)));
    var body: Markup;
    if cutoff.Some? {
      SafeInside(candidate, cutoff.value);
      body := candidate[..cutoff.value];
    } else if boundaries.openFence.Some? {
      body := FencedBlockFallback(candidate, bodyBudget, boundaries.openFence.value);
    } else {
      body := candidate;
    }
    var projected := WithMarker(body);
    if |projected| > maximum {
      return Err(BudgetExceeded);
    }
    return Ok(projected);
  }

  /** Unless one fence swallows the excerpt, no fence is open at its end. */
  lemma BodyIsClosed(candidate: Markup)
    requires !Swallowed(candidate)
    ensures OpenFence(BodyOf(candidate)) == None && |BodyOf(candidate)| <= |candidate|
  {
    if Cutoff(candidate).Some? {
      CutoffIsSafe(candidate);
      hide Cutoff;
      BoundaryBody(candidate, Cutoff(candidate).value);
      SafeInside(candidate, Cutoff(candidate).value);
    }
    hide OpenFence;
  }

  lemma ProjectedSize(candidate: Markup)
    ensures |WithMarker(BodyOf(candidate))| > |candidate| + MarkerBudget() <==> Swallowed(candidate) && |candidate| < 12
  {
    hide OpenFence, Cutoff, Fallback;
    MarkedSize(BodyOf(candidate));
    if Swallowed(candidate) {
      FallbackFits(candidate, |candidate|, OpenFence(candidate).value);
    } else {
      BodyIsClosed(candidate);
    }
    hide TrimEnd, WithMarker;
  }

  /**
   The result fits its budget. There is none exactly when the budget cannot hold the marker, or one
   fence swallows the excerpt and fewer than twelve code points remain for the bare wrapper.
   */
  lemma ProjectedFits(markdown: Markup, maximum: nat)
    ensures Projected(markdown, maximum).Ok? ==> |Projected(markdown, maximum).value| <= maximum
    ensures Projected(markdown, maximum) == Err(NoRoomForMarker) <==> |markdown| > maximum && maximum <= MarkerBudget()
    ensures |markdown| > maximum > MarkerBudget() ==>
              (Projected(markdown, maximum) == Err(BudgetExceeded)
               <==> Swallowed(markdown[..maximum - MarkerBudget()]) && maximum < MarkerBudget() + 12)
  {
    if |markdown| > maximum > MarkerBudget() {
      ProjectedSize(markdown[..maximum - MarkerBudget()]);
    }
    hide Swallowed, WithMarker, BodyOf, MarkerBudget;
  }

  /** The projection of a longer text leaves a fence open if and only if trimming its excerpt reopens one. */
  lemma ProjectedOpensExactly(markdown: Markup, maximum: nat)
    requires |markdown| > maximum && Projected(markdown, maximum).Ok?
    ensures var candidate := markdown[..maximum - MarkerBudget()];
            OpenFence(Projected(markdown, maximum).value).Some? <==> !Swallowed(candidate) && Reopens(BodyOf(candidate))
  {
    var candidate := markdown[..maximum - MarkerBudget()];
    hide OpenFence, WithMarker, Fallback, TrimEnd, Reopens;
    MarkerKeepsFence(BodyOf(candidate));
    if Swallowed(candidate) {
      FallbackFits(candidate, |candidate|, OpenFence(candidate).value);
    } else {
      BodyIsClosed(candidate);
      TrimmingExactly(BodyOf(candidate));
    }
  }

  /** The projection of a longer ordinary text leaves no fence open. */
  lemma ProjectedIsClosed(markdown: Markup, maximum: nat)
    requires |markdown| > maximum && Projected(markdown, maximum).Ok? && Ordinary(markdown)
    ensures OpenFence(Projected(markdown, maximum).value) == None
  {
    hide Projected, OpenFence, Reopens, Ordinary, Swallowed, BodyOf;
    ProjectedFits(markdown, maximum);
    ProjectedOpensExactly(markdown, maximum);
    PrefixOfOrdinary(markdown, maximum - MarkerBudget());
    if !Swallowed(markdown[..maximum - MarkerBudget()]) {
      OrdinaryDoesNotReopen(markdown[..maximum - MarkerBudget()]);
    }
  }

  lemma OrdinaryDoesNotReopen(candidate: Markup)
    requires Ordinary(candidate) && !Swallowed(candidate)
    ensures !Reopens(BodyOf(candidate))
  {
    hide OpenFence, Reopens, Ordinary, Swallowed, BodyOf, TrimEnd;
    BodyIsClosed(candidate);
    OrdinaryBody(candidate);
    TrimmingKeepsClosed(BodyOf(candidate));
    TrimmingExactly(BodyOf(candidate));
  }

  lemma OrdinaryBody(candidate: Markup)
    requires Ordinary(candidate) && !Swallowed(candidate)
    ensures Ordinary(BodyOf(candidate))
  {
    CutoffIsSafe(candidate);
    hide Cutoff, OpenFence;
  }

  /** One line has no boundary to cut at. */
  lemma OneLineHasNoCutoff(line: Markup)
    requires LF !in line
    ensures Cutoff(line) == None && Lines(line) == [line]
  {
    OneLine(line);
    var lines := Lines(line);
    assert LineBoundaries(lines, 1) == [] && BlockBoundaries(lines, 1) == [] && SectionBoundaries(lines, 1) == [] by {
      assert LineBoundaries(lines, 0) == [] && BlockBoundaries(lines, 0) == [] && SectionBoundaries(lines, 0) == [];
      assert Headings(lines, 0) == 0;
      hide FenceAfter, Heading, Blank;
    }
  }

  /** Some text of n code points that begins with this one. */
  function Padded(start: Markup, n: nat): (r: Markup)
    ensures |r| == |start| + n && r[..|start|] == start
  {
    start + seq(n, _ => 97)
  }

  /** A text that is one fence, with three code points of room beside the marker: the final check fails. */
  lemma BudgetCanBeExceeded()
    ensures Projected(Padded([TICK, TICK, TICK], MarkerBudget() + 1), MarkerBudget() + 3) == Err(BudgetExceeded)
  {
    var ticks: Markup := [TICK, TICK, TICK];
    OneLineHasNoCutoff(ticks);
    OneLineFence(ticks);
    ThreeTicks();
    assert Content(ticks) == ticks;
    assert OpenFence(ticks) == Some(Fence(TICK, 3));
    assert Swallowed(ticks);
    ProjectedFits(Padded(ticks, MarkerBudget() + 1), MarkerBudget() + 3);
  }

  /** A text cut behind a line separator, with four code points of room: the injected text leaves a fence open. */
  lemma ProjectionCanStayOpen()
    ensures var text := Padded([TICK, TICK, TICK, LINE_SEPARATOR], MarkerBudget() + 1);
            Projected(text, MarkerBudget() + 4).Ok? && OpenFence(Projected(text, MarkerBudget() + 4).value).Some?
  {
    hide Projected, OpenFence, Reopens, Swallowed, BodyOf, MarkerBudget;
    var candidate: Markup := [TICK, TICK, TICK, LINE_SEPARATOR];
    var text := Padded(candidate, MarkerBudget() + 1);
    assert text[..4] == candidate;
    CutBehindSeparator();
    LongerThanMarker(text, MarkerBudget() + 4);
    ProjectedFits(text, MarkerBudget() + 4);
    ProjectedOpensExactly(text, MarkerBudget() + 4);
  }

  lemma CutBehindSeparator()
    ensures var candidate: Markup := [TICK, TICK, TICK, LINE_SEPARATOR];
            !Swallowed(candidate) && BodyOf(candidate) == candidate && Reopens(BodyOf(candidate))
  {
    var candidate: Markup := [TICK, TICK, TICK, LINE_SEPARATOR];
    TrimmingCanOpen();
    OneLineHasNoCutoff(candidate);
    hide OpenFence, Reopens, Cutoff;
  }

  /** Every failure is one of the two that ProjectedFits describes. */
  lemma LongerThanMarker(markdown: Markup, maximum: nat)
    requires maximum > MarkerBudget()
    ensures Projected(markdown, maximum).Ok? || Projected(markdown, maximum) == Err(BudgetExceeded)
  {
    hide WithMarker, BodyOf;
  }

  lemma OpenFenceOfBoundaries(text: Markup)
    ensures BoundariesOf(text).openFence == OpenFence(text)
    ensures OpenFence(text).Some? ==> OpenFence(text).value.character == TICK || OpenFence(text).value.character == TILDE
  {
    FencesUseTwoCharacters(Lines(text));
  }

  lemma PrefixOfOrdinary(text: Markup, n: nat)
    requires n <= |text|
    ensures Ordinary(text) ==> Ordinary(text[..n])
  {
  }

  lemma SafeInside(text: Markup, b: nat)
    requires SafeBoundary(text, b)
    ensures b <= |text|
  {
  }

  lemma MarkedSize(body: Markup)
    ensures |TrimEnd(body)| <= |body|
    ensures |WithMarker(body)| == if TrimEnd(body) == [] then MarkerBudget() - 2 else |TrimEnd(body)| + MarkerBudget()
  {
  }
}
