/** The shapes of lines that the projection reads, written out as texts: fences, headings and trimmed ends. */
module LineGrammar {
  import opened Wrappers
  import opened Markdown
  import opened Projection

  function Repeated(c: CodePoint, n: nat): (r: Markup)
    ensures |r| == n && forall i :: 0 <= i < n ==> r[i] == c
  {
    seq(n, _ => c)
  }

  /** n times c and then the rest, which does not go on with c. */
  ghost predicate RunOf(line: Markup, c: CodePoint, n: nat, rest: Markup) {
    line == Repeated(c, n) + rest && (rest == [] || rest[0] != c)
  }

  lemma LeadingExactly(line: Markup, c: CodePoint, n: nat, rest: Markup)
    ensures RunOf(line, c, n, rest) <==> Leading(line, c) == n && rest == line[n..]
  {
    var r := Leading(line, c);
    if RunOf(line, c, n, rest) {
      assert forall i :: 0 <= i < n ==> line[i] == c;
      assert n < |line| ==> line[n] == rest[0];
      assert r == n;
      assert line[n..] == rest;
    }
    if r == n && rest == line[n..] {
      assert line == line[..n] + line[n..] && line[..n] == Repeated(c, n);
    }
  }

  /** Up to three spaces, at least three of one fence character, and a rest that does not go on with it. */
  ghost predicate FenceShape(line: Markup, indent: nat, fence: Fence, rest: Markup) {
    && indent <= 3 && fence.length >= 3 && (fence.character == 96 || fence.character == 126)
    && (rest == [] || rest[0] != fence.character)
    && line == Repeated(32, indent) + (Repeated(fence.character, fence.length) + rest)
  }

  lemma RunHasShape(line: Markup)
    requires FenceRun(line).Some?
    ensures FenceShape(line, Leading(line, SPACE), FenceRun(line).value.0, FenceRun(line).value.1)
  {
    var indent := Leading(line, SPACE);
    var (fence, rest) := FenceRun(line).value;
    LeadingExactly(line, SPACE, indent, line[indent..]);
    LeadingExactly(line[indent..], fence.character, fence.length, line[indent..][fence.length..]);
    hide Leading;
    assert line[indent..][fence.length..] == rest;
  }

  lemma ShapeIsRun(line: Markup, indent: nat, fence: Fence, rest: Markup)
    requires FenceShape(line, indent, fence, rest)
    ensures FenceRun(line) == Some((fence, rest))
  {
    var run := Repeated(fence.character, fence.length) + rest;
    LeadingExactly(line, SPACE, indent, run);
    LeadingExactly(run, fence.character, fence.length, rest);
    hide Leading, RunOf;
    assert run[0] == fence.character && line[indent..] == run && line[indent] == fence.character;
    assert line[indent + fence.length..] == run[fence.length..];
  }

  /** A line opens a fence exactly when it is such a run, with no line terminator behind it. */
  lemma OpensExactly(line: Markup, fence: Fence)
    ensures FenceDelimiter(line) == Some(fence) <==>
              exists indent, rest :: FenceShape(line, indent, fence, rest)
                                     && forall c <- rest :: c != 10 && c != 13 && c != 0x2028 && c != 0x2029
  {
    hide FenceRun;
    if FenceDelimiter(line) == Some(fence) {
      RunHasShape(line);
    }
    hide FenceShape;
    if indent, rest :| FenceShape(line, indent, fence, rest) && forall c <- rest :: c != 10 && c != 13 && c != 0x2028 && c != 0x2029 {
      ShapeIsRun(line, indent, fence, rest);
    }
  }

  /** A line closes a fence exactly when it is a run of its character, as long at least, with blanks behind it. */
  lemma ClosesExactly(line: Markup, fence: Fence)
    ensures ClosesFence(line, fence) <==>
              exists indent, length, rest :: length >= fence.length && FenceShape(line, indent, Fence(fence.character, length), rest)
                                             && forall c <- rest :: c == 9 || c == 32
  {
    hide FenceRun;
    if ClosesFence(line, fence) {
      RunHasShape(line);
    }
    hide FenceShape;
    if indent, length, rest :|
        length >= fence.length && FenceShape(line, indent, Fence(fence.character, length), rest) && forall c <- rest :: c == 9 || c == 32 {
      ShapeIsRun(line, indent, Fence(fence.character, length), rest);
    }
  }

  /** Up to three spaces, one to six hashes, and then white space or the end. */
  ghost predicate HeadingShape(line: Markup, indent: nat, hashes: nat, rest: Markup) {
    && indent <= 3 && 1 <= hashes <= 6
    && (rest == [] || rest[0] == 9 || rest[0] == 32)
    && line == Repeated(32, indent) + (Repeated(35, hashes) + rest)
  }

  lemma ShapeIsHeading(line: Markup, indent: nat, hashes: nat, rest: Markup)
    requires HeadingShape(line, indent, hashes, rest)
    ensures Heading(line)
  {
    var run := Repeated(HASH, hashes) + rest;
    LeadingExactly(line, SPACE, indent, run);
    LeadingExactly(run, HASH, hashes, rest);
    hide Leading, RunOf;
    assert line[indent..] == run && run[0] == HASH;
    assert indent + hashes < |line| ==> line[indent + hashes] == rest[0];
  }

  lemma HeadingHasShape(line: Markup)
    requires Heading(line)
    ensures var indent := Leading(line, SPACE);
            var hashes := Leading(line[indent..], HASH);
            HeadingShape(line, indent, hashes, line[indent..][hashes..])
  {
    var indent := Leading(line, SPACE);
    var hashes := Leading(line[indent..], HASH);
    LeadingExactly(line, SPACE, indent, line[indent..]);
    LeadingExactly(line[indent..], HASH, hashes, line[indent..][hashes..]);
    hide Leading;
    assert line[indent..][hashes..] == line[indent + hashes..];
  }

  /** A line is a heading exactly when it has that shape. */
  lemma HeadingExactly(line: Markup)
    ensures Heading(line) <==> exists indent: nat, hashes: nat, rest: Markup :: HeadingShape(line, indent, hashes, rest)
  {
    hide Heading, HeadingShape;
    if Heading(line) {
      HeadingHasShape(line);
    }
    if indent: nat, hashes: nat, rest: Markup :| HeadingShape(line, indent, hashes, rest) {
      ShapeIsHeading(line, indent, hashes, rest);
    }
  }

  lemma TailGrows(front: Markup, c: CodePoint, n: nat)
    requires n <= |front|
    ensures (front + [c])[n..] == front[n..] + [c]
  {
  }

  /** Trimming removes white space at the end, all of it and nothing else. */
  lemma {:induction false} TrimEndExactly(text: Markup)
    ensures var kept := TrimEnd(text);
            && kept <= text && (forall c <- text[|kept|..] :: White(c))
            && (kept != [] ==> !White(kept[|kept| - 1]))
    decreases |text|
  {
    hide White;
    if text != [] && White(text[|text| - 1]) {
      var front := text[..|text| - 1];
      TrimEndExactly(front);
      TailGrows(front, text[|text| - 1], |TrimEnd(front)|);
      assert text == front + [text[|text| - 1]];
    }
  }

  // ---------- The injected text ----------

  /** The text ends in the marker on a line of its own, with a blank line before it if anything is before it. */
  ghost predicate Marked(text: Markup, excerpt: Markup) {
    text == if excerpt == [] then MARKER + [10] else excerpt + [10, 10] + MARKER + [10]
  }

  /** The excerpt is the text up to this end, without the white space there. */
  ghost predicate CutsAt(text: Markup, end: nat, excerpt: Markup) {
    && end <= |text| && excerpt <= text[..end]
    && (forall c <- text[|excerpt|..end] :: White(c))
    && (excerpt != [] ==> !White(excerpt[|excerpt| - 1]))
  }

  lemma TrimmedCuts(text: Markup, end: nat)
    requires end <= |text|
    ensures CutsAt(text, end, TrimEnd(text[..end]))
  {
    TrimEndExactly(text[..end]);
    hide TrimEnd, White;
    assert text[..end][|TrimEnd(text[..end])|..] == text[|TrimEnd(text[..end])|..end];
  }

  /** Where an excerpt that no fence swallows ends: at the cutoff, or where the budget does. */
  function EndOf(candidate: Markup): nat {
    if Cutoff(candidate).Some? then Cutoff(candidate).value else |candidate|
  }

  lemma BodyEnds(candidate: Markup)
    requires !Swallowed(candidate)
    ensures EndOf(candidate) <= |candidate| && BodyOf(candidate) == candidate[..EndOf(candidate)]
  {
    CutoffIsSafe(candidate);
    if Cutoff(candidate).Some? {
      SafeInside(candidate, Cutoff(candidate).value);
    }
    hide Cutoff, OpenFence, SafeBoundary;
    assert candidate[..|candidate|] == candidate;
  }

  /**
   A text within the budget is injected as it is. Of a longer one an excerpt is, and the marker.
   Unless one fence swallows it, the excerpt is the beginning of the text up to the cutoff, or all
   that the budget leaves, without the white space at its end.
   */
  lemma ProjectionShape(markdown: Markup, maximum: nat)
    requires Projected(markdown, maximum).Ok?
    ensures |markdown| <= maximum ==> Projected(markdown, maximum).value == markdown
    ensures |markdown| > maximum ==>
              var candidate := markdown[..maximum - MarkerBudget()];
              var excerpt := TrimEnd(BodyOf(candidate));
              Marked(Projected(markdown, maximum).value, excerpt)
              && (!Swallowed(candidate) ==> CutsAt(markdown, EndOf(candidate), excerpt))
  {
    hide EndOf, BodyOf, Swallowed, TrimEnd, CutsAt;
    if |markdown| > maximum {
      var candidate := markdown[..maximum - MarkerBudget()];
      if !Swallowed(candidate) {
        BodyEnds(candidate);
        assert candidate[..EndOf(candidate)] == markdown[..EndOf(candidate)];
        TrimmedCuts(markdown, EndOf(candidate));
      }
    }
  }

  /**
   The wrapped excerpt stands between three of the fence character that the source does not use: for a
   source fenced by backticks tildes, and the other way round.
   */
  lemma FallbackShape(source: Markup, maximum: nat, fence: Fence)
    ensures var w := if fence.character == 96 then 126 else 96;
            Fallback(source, maximum, fence)
            == Repeated(w, 3) + [116, 101, 120, 116, 10] + Excerpt(source, maximum) + [10] + Repeated(w, 3) + [10]
    ensures fence.character == 96 || fence.character == 126 ==> Fallback(source, maximum, fence)[0] != fence.character
  {
    hide Excerpt;
    var w := Wrapper(fence);
    assert Opening(w) == Repeated(w, 3) + [116, 101, 120, 116, 10];
    assert Closing(w) == [10] + Repeated(w, 3) + [10];
  }
}
