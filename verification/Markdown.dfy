/**
 Lines, fences and boundaries of a Markdown text, as the README projection scans them.
 A text is a sequence of Unicode code points.
 */
module Markdown {
  import opened Wrappers

  newtype CodePoint = x: int | 0 <= x < 0x11_0000

  type Markup = seq<CodePoint>

  const LF: CodePoint := 10
  const CR: CodePoint := 13
  const TAB: CodePoint := 9
  const SPACE: CodePoint := 32
  const HASH: CodePoint := 35
  const TICK: CodePoint := 96
  const TILDE: CodePoint := 126
  const LINE_SEPARATOR: CodePoint := 0x2028
  const PARAGRAPH_SEPARATOR: CodePoint := 0x2029

  /** What the dot of a regular expression does not match. */
  predicate LineTerminator(c: CodePoint) {
    c == LF || c == CR || c == LINE_SEPARATOR || c == PARAGRAPH_SEPARATOR
  }

  /** What trimming removes. */
  predicate White(c: CodePoint) {
    9 <= c <= 13 || c == 32 || c == 160 || c == 5760 || 8192 <= c <= 8202 || c == 8232 || c == 8233
    || c == 8239 || c == 8287 || c == 12288 || c == 65279
  }

  function TrimEnd(text: Markup): (r: Markup)
    ensures r <= text
    decreases |text|
  {
    if text != [] && White(text[|text| - 1]) then TrimEnd(text[..|text| - 1]) else text
  }

  // ---------- Lines ----------

  function AddCharacter(lines: seq<Markup>, c: CodePoint): (r: seq<Markup>)
    requires lines != []
    ensures r != []
  {
    if c == LF then lines + [[]] else lines[..|lines| - 1] + [lines[|lines| - 1] + [c]]
  }

  /** split at line feeds; the last line is the one that has none. */
  function Lines(text: Markup): (r: seq<Markup>)
    ensures r != []
    decreases |text|
  {
    if text == [] then [[]] else AddCharacter(Lines(text[..|text| - 1]), text[|text| - 1])
  }

  lemma LinesAppend(text: Markup, c: CodePoint)
    ensures Lines(text + [c]) == AddCharacter(Lines(text), c)
  {
    assert (text + [c])[..|text|] == text;
  }

  lemma AddToLast(x: seq<Markup>, y: seq<Markup>, c: CodePoint)
    requires y != []
    ensures AddCharacter(x + y, c) == x + AddCharacter(y, c)
  {
    assert (x + y)[..|x + y| - 1] == x + y[..|y| - 1];
  }

  lemma {:induction false} LinesOfConcat(a: Markup, b: Markup)
    ensures Lines(a + [LF] + b) == Lines(a) + Lines(b)
    decreases |b|
  {
    hide AddCharacter;
    if b == [] {
      assert a + [LF] + b == a + [LF];
      LinesAppend(a, LF);
      NewLine(Lines(a));
    } else {
      var front, last := b[..|b| - 1], b[|b| - 1];
      LinesOfConcat(a, front);
      assert a + [LF] + b == (a + [LF] + front) + [last];
      LinesAppend(a + [LF] + front, last);
      AddToLast(Lines(a), Lines(front), last);
    }
  }

  lemma NewLine(lines: seq<Markup>)
    requires lines != []
    ensures AddCharacter(lines, LF) == lines + Lines([])
  {
  }

  /** Text without a line feed is one line. */
  lemma {:induction false} OneLine(text: Markup)
    requires LF !in text
    ensures Lines(text) == [text]
    decreases |text|
  {
    if text != [] {
      var front, last := text[..|text| - 1], text[|text| - 1];
      OneLine(front);
      assert text == front + [last];
      assert [front][..0] == [];
    }
  }

  /** A line as its regular expressions see it: without the carriage return of CRLF. */
  function Content(line: Markup): Markup {
    if line != [] && line[|line| - 1] == CR then line[..|line| - 1] else line
  }

  // ---------- Fences ----------

  datatype Fence = Fence(character: CodePoint, length: nat)

  function Leading(line: Markup, c: CodePoint): (r: nat)
    ensures r <= |line| && (forall i :: 0 <= i < r ==> line[i] == c) && (r < |line| ==> line[r] != c)
    decreases |line|
  {
    if line == [] || line[0] != c then 0 else 1 + Leading(line[1..], c)
  }

  /** Up to three spaces and then at least three of one fence character; the rest of the line. */
  function FenceRun(line: Markup): Option<(Fence, Markup)> {
    var indent := Leading(line, SPACE);
    if indent > 3 || indent == |line| || (line[indent] != TICK && line[indent] != TILDE) then None
    else
      var length := Leading(line[indent..], line[indent]);
      if length < 3 then None else Some((Fence(line[indent], length), line[indent + length..]))
  }

  /** fenceDelimiter: the line opens a fence when none is open. */
  function FenceDelimiter(line: Markup): Option<Fence> {
    match FenceRun(line)
    case None => None
    case Some((fence, rest)) => if forall c <- rest :: !LineTerminator(c) then Some(fence) else None
  }

  /** closesFence */
  predicate ClosesFence(line: Markup, fence: Fence) {
    match FenceRun(line)
    case None => false
    case Some((own, rest)) => own.character == fence.character && own.length >= fence.length && forall c <- rest :: c == TAB || c == SPACE
  }

  function FenceStep(open: Option<Fence>, line: Markup): Option<Fence> {
    match open
    case Some(fence) => if ClosesFence(Content(line), fence) then None else open
    case None => FenceDelimiter(Content(line))
  }

  /** The fence open after these lines. */
  function FenceAfter(lines: seq<Markup>): Option<Fence>
    decreases |lines|
  {
    if lines == [] then None else FenceStep(FenceAfter(lines[..|lines| - 1]), lines[|lines| - 1])
  }

  function OpenFence(text: Markup): Option<Fence> {
    FenceAfter(Lines(text))
  }

  /** Carriage returns occur only before a line feed or at the end, and no other line terminators but LF occur. */
  predicate Ordinary(text: Markup) {
    forall i :: 0 <= i < |text| ==>
      text[i] != LINE_SEPARATOR && text[i] != PARAGRAPH_SEPARATOR
      && (text[i] == CR && i + 1 < |text| ==> text[i + 1] == LF)
  }

  lemma PrefixIsOrdinary(text: Markup, n: nat)
    requires Ordinary(text) && n <= |text|
    ensures Ordinary(text[..n])
  {
  }

  // ---------- Trimming opens no fence ----------

  lemma {:induction false} LeadingOfConcat(line: Markup, more: Markup, c: CodePoint)
    ensures Leading(line, c) < |line| ==> Leading(line + more, c) == Leading(line, c)
    ensures Leading(line, c) == |line| ==> Leading(line + more, c) == |line| + Leading(more, c)
    decreases |line|
  {
    if line == [] {
      assert line + more == more;
    } else {
      assert (line + more)[1..] == line[1..] + more;
      LeadingOfConcat(line[1..], more, c);
    }
  }

  lemma SingleLeading(w: CodePoint)
    requires White(w)
    ensures Leading([w], TICK) == 0 && Leading([w], TILDE) == 0
  {
  }

  /** A white character at the end of a line is no part of its fence run. */
  lemma RunOfTrimmed(line: Markup, w: CodePoint)
    requires White(w)
    ensures match FenceRun(line)
            case None => FenceRun(line + [w]) == None
            case Some((fence, rest)) => FenceRun(line + [w]) == Some((fence, rest + [w]))
  {
    var indent := Leading(line, SPACE);
    LeadingOfConcat(line, [w], SPACE);
    hide Leading;
    SingleLeading(w);
    if indent <= 3 && indent < |line| && (line[indent] == TICK || line[indent] == TILDE) {
      var c, tail := line[indent], line[indent..];
      LeadingOfConcat(tail, [w], c);
      assert (line + [w])[indent..] == tail + [w];
      var length := Leading(tail, c);
      assert (line + [w])[indent + length..] == line[indent + length..] + [w];
    } else {
      assert indent == |line| ==> Leading(line + [w], SPACE) > 3 || Leading(line + [w], SPACE) == |line| + 1 || (line + [w])[|line|] == w;
    }
  }

  lemma ClosingOfTrimmed(line: Markup, w: CodePoint, fence: Fence)
    requires ClosesFence(line + [w], fence) && White(w)
    ensures ClosesFence(line, fence)
  {
    RunOfTrimmed(line, w);
    hide FenceRun;
    if FenceRun(line).Some? {
      var rest := FenceRun(line).value.1;
      forall c | c in rest
        ensures c in rest + [w]
      {
      }
    }
  }

  predicate AllWhite(line: Markup) {
    forall c <- line :: White(c)
  }

  /** Line k is the last of the text that is not blank, or the first line of a blank text. */
  ghost predicate LastTextLine(lines: seq<Markup>, k: nat) {
    && k < |lines|
    && (forall j :: k < j < |lines| ==> AllWhite(lines[j]))
    && (k > 0 ==> !AllWhite(lines[k]))
  }

  lemma TrimEndAppend(text: Markup, w: CodePoint)
    ensures TrimEnd(text + [w]) == if White(w) then TrimEnd(text) else text + [w]
  {
    assert (text + [w])[..|text|] == text;
  }

  lemma {:induction false} TrimEndOfWhite(line: Markup)
    ensures AllWhite(line) <==> TrimEnd(line) == []
    decreases |line|
  {
    if line != [] {
      var front := line[..|line| - 1];
      TrimEndOfWhite(front);
      assert line == front + [line[|line| - 1]];
      assert line[|line| - 1] in line;
      assert forall c <- front :: c in line;
    }
  }

  /** The lines of a trimmed text: those before its last text line, and that line trimmed. */
  ghost predicate TrimmedAt(lines: seq<Markup>, trimmed: seq<Markup>, k: nat) {
    LastTextLine(lines, k) && trimmed == lines[..k] + [TrimEnd(lines[k])]
  }

  lemma {:induction false} TrimmedLines(text: Markup) returns (k: nat)
    ensures TrimmedAt(Lines(text), Lines(TrimEnd(text)), k)
    decreases |text|
  {
    if text == [] {
      k := 0;
      assert Lines(text)[..0] + [TrimEnd([])] == [[]];
    } else {
      var front, w := text[..|text| - 1], text[|text| - 1];
      assert text == front + [w];
      if White(w) {
        k := TrimmedLines(front);
        OneMoreWhite(Lines(front), Lines(TrimEnd(front)), k, w);
      } else {
        k := |Lines(text)| - 1;
        EndsInText(Lines(front), w);
      }
    }
  }

  lemma OneMoreWhite(lines: seq<Markup>, trimmed: seq<Markup>, k: nat, w: CodePoint)
    requires TrimmedAt(lines, trimmed, k) && White(w) && lines != []
    ensures TrimmedAt(AddCharacter(lines, w), trimmed, k)
  {
    var more := AddCharacter(lines, w);
    var last := lines[|lines| - 1];
    TrimEndAppend(last, w);
    TrimEndOfWhite(last);
    TrimEndOfWhite(last + [w]);
    hide AllWhite, TrimEnd;
    assert AllWhite([]) by {
      NothingIsWhite();
    }
    assert more[..k] == lines[..k];
  }

  lemma NothingIsWhite()
    ensures AllWhite([])
  {
  }

  lemma EndsInText(lines: seq<Markup>, c: CodePoint)
    requires lines != [] && !White(c)
    ensures var more := AddCharacter(lines, c); TrimmedAt(more, more, |more| - 1)
  {
    var last := lines[|lines| - 1];
    TrimEndAppend(last, c);
    assert (last + [c])[|last|] == c;
    var more := AddCharacter(lines, c);
    assert more == more[..|more| - 1] + [more[|more| - 1]];
  }

  /** A blank line neither opens nor closes a fence. */
  lemma {:induction false} WhiteRunsNoFence(line: Markup)
    requires AllWhite(line)
    ensures FenceRun(line) == None
    decreases |line|
  {
    if line == [] {
      assert Leading(line, SPACE) == 0;
    } else {
      var front, w := line[..|line| - 1], line[|line| - 1];
      assert w in line && line == front + [w];
      assert forall c <- front :: c in line;
      WhiteRunsNoFence(front);
      RunOfTrimmed(front, w);
    }
  }

  lemma WhiteStepsNothing(open: Option<Fence>, line: Markup)
    requires AllWhite(line)
    ensures FenceStep(open, line) == open
  {
    assert forall c <- Content(line) :: c in line;
    WhiteRunsNoFence(Content(line));
    hide FenceRun;
  }

  lemma {:induction false} BlankLinesStepNothing(lines: seq<Markup>, k: nat)
    requires k < |lines| && forall j :: k < j < |lines| ==> AllWhite(lines[j])
    ensures FenceAfter(lines) == FenceStep(FenceAfter(lines[..k]), lines[k])
    decreases |lines|
  {
    if k < |lines| - 1 {
      var front := lines[..|lines| - 1];
      BlankLinesStepNothing(front, k);
      assert front[..k] == lines[..k];
      WhiteStepsNothing(FenceAfter(front), lines[|lines| - 1]);
    } else {
      assert lines[..k] == lines[..|lines| - 1];
    }
  }

  /** What a text and its trimmed text leave open differs by its last text line alone. */
  lemma FencesOfTrimmed(text: Markup) returns (k: nat)
    ensures LastTextLine(Lines(text), k)
    ensures OpenFence(text) == FenceStep(FenceAfter(Lines(text)[..k]), Lines(text)[k])
    ensures OpenFence(TrimEnd(text)) == FenceStep(FenceAfter(Lines(text)[..k]), TrimEnd(Lines(text)[k]))
  {
    k := TrimmedLines(text);
    var lines := Lines(text);
    BlankLinesStepNothing(lines, k);
    var trimmed := lines[..k] + [TrimEnd(lines[k])];
    assert trimmed[..k] == lines[..k] && |trimmed| == k + 1;
    hide FenceStep;
  }

  lemma {:induction false} TrimmedStillCloses(line: Markup, fence: Fence)
    requires ClosesFence(line, fence)
    ensures ClosesFence(TrimEnd(line), fence)
    decreases |line|
  {
    if line != [] && White(line[|line| - 1]) {
      var front, w := line[..|line| - 1], line[|line| - 1];
      assert line == front + [w];
      ClosingOfTrimmed(front, w, fence);
      TrimmedStillCloses(front, fence);
    }
  }

  lemma {:induction false} TrimEndEnds(line: Markup)
    ensures Content(TrimEnd(line)) == TrimEnd(line) && TrimEnd(Content(line)) == TrimEnd(line)
    decreases |line|
  {
    if line != [] && White(line[|line| - 1]) {
      TrimEndEnds(line[..|line| - 1]);
    }
  }

  /** The last text line stands outside every fence, opens none as it is, and opens one once trimmed. */
  ghost predicate ReopensAt(text: Markup, k: nat) {
    var lines := Lines(text);
    && LastTextLine(lines, k)
    && FenceAfter(lines[..k]).None?
    && FenceDelimiter(Content(lines[k])).None? && FenceDelimiter(TrimEnd(lines[k])).Some?
  }

  ghost predicate Reopens(text: Markup) {
    exists k: nat :: ReopensAt(text, k)
  }

  lemma LastTextLineIsUnique(lines: seq<Markup>, j: nat, k: nat)
    requires LastTextLine(lines, j) && LastTextLine(lines, k)
    ensures j == k
  {
    hide AllWhite;
  }

  /** Trimming a text whose fences are closed opens one if and only if its last text line reopens. */
  lemma TrimmingExactly(text: Markup)
    requires OpenFence(text) == None
    ensures OpenFence(TrimEnd(text)).Some? <==> Reopens(text)
  {
    var k := FencesOfTrimmed(text);
    var line, open := Lines(text)[k], FenceAfter(Lines(text)[..k]);
    TrimEndEnds(line);
    if open.Some? {
      TrimmedStillCloses(Content(line), open.value);
    }
    forall j: nat | ReopensAt(text, j)
      ensures j == k
    {
      LastTextLineIsUnique(Lines(text), j, k);
    }
    hide FenceDelimiter, ClosesFence, LastTextLine;
    if open.None? && FenceDelimiter(TrimEnd(line)).Some? {
      assert ReopensAt(text, k);
    }
  }

  /** A line that opens a fence only once trimmed holds a line terminator, other than the return of its own CRLF. */
  lemma ReopeningHoldsTerminator(line: Markup)
    requires FenceDelimiter(line).None? && FenceDelimiter(TrimEnd(line)).Some?
    ensures exists c <- line :: LineTerminator(c)
  {
    var rest := RunOfUntrimmed(line);
    assert forall c <- rest :: c in line;
  }

  lemma {:induction false} RunOfUntrimmed(line: Markup) returns (rest: Markup)
    requires FenceRun(TrimEnd(line)).Some?
    ensures FenceRun(line).Some? && FenceRun(line).value.1 == rest
    ensures forall c <- rest :: c in line
    decreases |line|
  {
    if line != [] && White(line[|line| - 1]) {
      var front, w := line[..|line| - 1], line[|line| - 1];
      assert line == front + [w];
      var before := RunOfUntrimmed(front);
      RunOfTrimmed(front, w);
      rest := before + [w];
    } else {
      rest := FenceRun(line).value.1;
    }
  }

  /** No line terminator occurs, but for a carriage return at the end. */
  predicate PlainLine(line: Markup) {
    forall i :: 0 <= i < |line| && LineTerminator(line[i]) ==> line[i] == CR && i == |line| - 1
  }

  lemma PlainContent(line: Markup)
    requires PlainLine(line)
    ensures forall c <- Content(line) :: !LineTerminator(c)
  {
    assert forall i :: 0 <= i < |Content(line)| ==> Content(line)[i] == line[i];
  }

  lemma PlainAppend(line: Markup, c: CodePoint)
    requires PlainLine(line) && (line != [] ==> line[|line| - 1] != CR) && (c == CR || !LineTerminator(c))
    ensures PlainLine(line + [c])
  {
  }

  lemma {:induction false} OrdinaryLines(text: Markup)
    requires Ordinary(text)
    ensures forall k :: 0 <= k < |Lines(text)| ==> PlainLine(Lines(text)[k])
    ensures var last := Lines(text)[|Lines(text)| - 1]; last != [] ==> text != [] && last[|last| - 1] == text[|text| - 1]
    decreases |text|
  {
    if text != [] {
      var front, c := text[..|text| - 1], text[|text| - 1];
      PrefixIsOrdinary(text, |front|);
      OrdinaryLines(front);
      var last := Lines(front)[|Lines(front)| - 1];
      assert front != [] ==> front[|front| - 1] == text[|text| - 2];
      hide PlainLine;
      assert PlainLine([]) by {
        NothingIsPlain();
      }
      if c != LF {
        PlainAppend(last, c);
      }
    }
  }

  lemma NothingIsPlain()
    ensures PlainLine([])
  {
  }

  /** Trimming an ordinary text whose fences are closed leaves them closed. */
  lemma TrimmingKeepsClosed(text: Markup)
    requires Ordinary(text) && OpenFence(text) == None
    ensures OpenFence(TrimEnd(text)) == None
  {
    TrimmingExactly(text);
    OrdinaryLines(text);
    if Reopens(text) {
      var k: nat :| ReopensAt(text, k);
      var line := Lines(text)[k];
      TrimEndEnds(line);
      PlainContent(line);
      ReopeningHoldsTerminator(Content(line));
    }
  }

  /** Such texts exist: trimming a line separator turns this one into an opening fence. */
  lemma TrimmingCanOpen()
    ensures var text: Markup := [TICK, TICK, TICK, LINE_SEPARATOR];
            OpenFence(text) == None && Reopens(text) && OpenFence(TrimEnd(text)) == Some(Fence(TICK, 3))
  {
    var t: Markup, text: Markup := [TICK, TICK, TICK], [TICK, TICK, TICK, LINE_SEPARATOR];
    assert text == t + [LINE_SEPARATOR] && text[3] == LINE_SEPARATOR;
    OneLine(t);
    OneLine(text);
    OneLineFence(t);
    OneLineFence(text);
    ThreeTicks();
    RunOfTrimmed(t, LINE_SEPARATOR);
    var rest: Markup := [] + [LINE_SEPARATOR];
    assert rest[0] == LINE_SEPARATOR && rest[0] in rest && LineTerminator(rest[0]);
    assert FenceRun(text) == Some((Fence(TICK, 3), rest));
    assert Content(text) == text && Content(t) == t;
    assert FenceDelimiter(text) == None;
    assert text[..3] == t && TrimEnd(text) == TrimEnd(t) == t;
    TrimmingExactly(text);
  }

  lemma OneLineFence(line: Markup)
    ensures FenceAfter([line]) == FenceStep(None, line)
  {
    assert [line][..0] == [];
  }

  lemma ThreeTicks()
    ensures FenceRun([TICK, TICK, TICK]) == Some((Fence(TICK, 3), []))
  {
    var t: Markup := [TICK, TICK, TICK];
    assert t[1..] == [TICK, TICK] && t[1..][1..] == [TICK] && t[1..][1..][1..] == [];
    assert Leading([TICK], TICK) == 1 && Leading([TICK, TICK], TICK) == 2 && Leading(t, TICK) == 3;
    assert t[0..] == t && t[3..] == [];
  }
}
