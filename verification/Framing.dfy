/**
 Newline framing on both ends of the socket. The server reads bounded frames from whatever
 pieces its reader yields; the client cuts lines out of whatever chunks arrive.
 */
module Framing {
  import opened Wrappers
  import opened Texts

  const MAX_FRAME_BYTES := 1_048_576
  const NEWLINE: Byte := 10

  type Line = seq<Byte>

  // ---------- Lines ----------

  /** The position of the first newline. */
  function FirstNewline(bytes: seq<Byte>): (r: Option<nat>)
    ensures r.Some? ==> r.value < |bytes| && bytes[r.value] == NEWLINE && NEWLINE !in bytes[..r.value]
    ensures r.None? ==> NEWLINE !in bytes
    decreases |bytes|
  {
    if bytes == [] then None
    else if bytes[0] == NEWLINE then Some(0)
    else
      match FirstNewline(bytes[1..])
      case None =>
        assert bytes == [bytes[0]] + bytes[1..];
        None
      case Some(k) =>
        assert bytes[..k + 1] == [bytes[0]] + bytes[1..][..k];
        Some(k + 1)
  }

  /** Bytes appended after a newline do not move it; after none, the first is theirs. */
  lemma NewlineInConcat(a: seq<Byte>, b: seq<Byte>)
    ensures FirstNewline(a).Some? ==> FirstNewline(a + b) == FirstNewline(a)
    ensures FirstNewline(a).None? ==>
              FirstNewline(a + b) == match FirstNewline(b) case None => None case Some(k) => Some(|a| + k)
    decreases |a|
  {
    if a == [] {
      assert a + b == b;
    } else {
      NewlineInConcat(a[1..], b);
      assert (a + b)[1..] == a[1..] + b;
    }
  }

  function Terminated(lines: seq<Line>): seq<Byte> {
    if lines == [] then [] else lines[0] + [NEWLINE] + Terminated(lines[1..])
  }

  ghost predicate NoNewlines(lines: seq<Line>) {
    forall line <- lines :: NEWLINE !in line
  }

  // ---------- The server's reader ----------

  /** What one fill of the read buffer yields; a retried fill is an interruption or a timeout. */
  datatype Fill = Data(bytes: seq<Byte>) | Retried | Failed

  datatype Frame = Frame(line: Line) | Oversized | Unterminated | Eof

  datatype ReadError = ReadError

  /** The bytes that can be read before the stream ends or fails. */
  function Content(fills: seq<Fill>): seq<Byte> {
    if fills == [] || fills[0].Failed? then []
    else (if fills[0].Data? then fills[0].bytes else []) + Content(fills[1..])
  }

  predicate Fails(fills: seq<Fill>) {
    exists i :: 0 <= i < |fills| && fills[i].Failed?
  }

  /** Between reads the buffer holds no empty piece: an empty fill means the end. */
  predicate Live(fills: seq<Fill>) {
    forall i :: 0 <= i < |fills| && fills[i].Data? ==> fills[i].bytes != []
  }

  datatype Read = Read(frame: Result<Frame, ReadError>, rest: seq<Byte>)

  /** The next frame of a byte stream, however it is cut into pieces. */
  function NextFrame(bytes: seq<Byte>, fails: bool): Read {
    match FirstNewline(bytes)
    case Some(k) => Read(Ok(if k > MAX_FRAME_BYTES then Oversized else Frame(bytes[..k])), bytes[k + 1..])
    case None =>
      if fails then Read(Err(ReadError.ReadError), [])
      else Read(Ok(if bytes == [] then Eof else if |bytes| > MAX_FRAME_BYTES then Oversized else Unterminated), [])
  }

  class Reader {
    var fills: seq<Fill>

    constructor (fills: seq<Fill>)
      requires Live(fills)
      ensures this.fills == fills
    {
      this.fills := fills;
    }

    /** Drop n bytes of the buffered piece. */
    method Consume(n: nat)
      requires Live(fills) && fills != [] && fills[0].Data? && n <= |fills[0].bytes|
      modifies this
      ensures Live(fills) && |fills| <= old(|fills|) && Fails(fills) == old(Fails(fills))
      ensures Content(fills) == old(Content(fills))[n..]
      ensures n > 0 ==> Measure(fills) < old(Measure(fills))
    {
      ghost var before := fills;
      if n == |fills[0].bytes| {
        fills := fills[1..];
      } else {
        fills := [Data(fills[0].bytes[n..])] + fills[1..];
      }
      ConsumeMeaning(before, fills, n);
    }

    /** read_bounded_frame */
    method ReadBoundedFrame() returns (r: Result<Frame, ReadError>)
      requires Live(fills)
      modifies this
      ensures Live(fills)
      ensures r == NextFrame(old(Content(fills)), old(Fails(fills))).frame
      ensures r.Ok? ==> Content(fills) == NextFrame(old(Content(fills)), old(Fails(fills))).rest && Fails(fills) == old(Fails(fills))
    {
      hide FirstNewline, Content, Fails, Live, Measure, NextFrame;
      var frame: seq<Byte> := [];
      ghost var all, fails := Content(fills), Fails(fills);
      while true
        invariant Live(fills) && Fails(fills) == fails
        invariant all == frame + Content(fills) && NEWLINE !in frame && |frame| <= MAX_FRAME_BYTES
        decreases Measure(fills)
      {
        if |fills| == 0 {
          StreamEnds(fills, frame);
          return Ok(if frame == [] then Eof else Unterminated);
        }
        FirstFill(fills);
        match fills[0]
        case Failed =>
          StreamFails(frame);
          return Err(ReadError.ReadError);
        case Retried =>
          fills := fills[1..];
        case Data(available) =>
          ghost var rest := Content(fills[1..]);
          var newline := FirstNewline(available);
          if newline.Some? {
            LineEnds(frame, available, rest, newline.value, fails);
            Consume(newline.value + 1);
            if |frame| + newline.value > MAX_FRAME_BYTES {
              return Ok(Oversized);
            }
            return Ok(Frame(frame + available[..newline.value]));
          }
          LineGoesOn(frame, available, rest);
          Consume(|available|);
          if |frame| + |available| > MAX_FRAME_BYTES {
            LineIsOver(frame + available, rest, fails);
            var discarded := DiscardThroughNewline();
            if discarded.Err? {
              return Err(ReadError.ReadError);
            }
            return Ok(Oversized);
          }
          frame := frame + available;
      }
    }

    /**
     The loop of handle_client over the frames of a connection, up to its end, an unterminated tail
     or a failed read.
     */
    method ReadFrames() returns (frames: seq<Frame>, failed: bool)
      requires Live(fills)
      modifies this
      ensures failed == old(Fails(fills))
      ensures frames == FramesUntil(old(Content(fills)), old(Fails(fills)))
    {
      hide Content, Fails, Live, NextFrame, FramesUntil;
      ghost var all, fails := Content(fills), Fails(fills);
      frames := [];
      while true
        invariant Live(fills) && Fails(fills) == fails
        invariant frames + FramesUntil(Content(fills), fails) == FramesUntil(all, fails)
        decreases |Content(fills)|
      {
        ghost var content := Content(fills);
        FramesStep(content, fails);
        var read := ReadBoundedFrame();
        if read.Err? {
          return frames, true;
        }
        match read.value
        case Eof => return frames, false;
        case Unterminated => return frames + [Unterminated], false;
        case _ =>
          Regroup(frames, [read.value], FramesUntil(Content(fills), fails));
          frames := frames + [read.value];
      }
    }

    /** discard_through_newline */
    method DiscardThroughNewline() returns (r: Result<bool, ReadError>)
      requires Live(fills)
      modifies this
      ensures Live(fills)
      ensures r.Err? <==> FirstNewline(old(Content(fills))).None? && old(Fails(fills))
      ensures r.Ok? ==> Fails(fills) == old(Fails(fills))
      ensures r.Ok? ==> Content(fills) == match FirstNewline(old(Content(fills))) case None => [] case Some(k) => old(Content(fills))[k + 1..]
    {
      hide FirstNewline, Content, Fails, Live, Measure;
      ghost var all, fails := Content(fills), Fails(fills);
      ghost var skipped: seq<Byte> := [];
      while true
        invariant Live(fills) && Fails(fills) == fails
        invariant all == skipped + Content(fills) && NEWLINE !in skipped
        decreases Measure(fills)
      {
        NewlineInConcat(skipped, Content(fills));
        if |fills| == 0 {
          NothingLeft(fills);
          return Ok(true);
        }
        FirstFill(fills);
        match fills[0]
        case Failed =>
          NoNewlineInNothing();
          return Err(ReadError.ReadError);
        case Retried =>
          fills := fills[1..];
        case Data(available) =>
          ghost var rest := Content(fills[1..]);
          var newline := FirstNewline(available);
          if newline.Some? {
            SkipEnds(skipped, available, rest, newline.value);
            Consume(newline.value + 1);
            return Ok(true);
          }
          LineGoesOn(skipped, available, rest);
          Consume(|available|);
          skipped := skipped + available;
      }
    }
  }

  lemma SkipEnds(skipped: seq<Byte>, available: seq<Byte>, rest: seq<Byte>, k: nat)
    requires NEWLINE !in skipped && FirstNewline(available) == Some(k)
    ensures FirstNewline(skipped + (available + rest)) == Some(|skipped| + k)
    ensures (skipped + (available + rest))[|skipped| + k + 1..] == (available + rest)[k + 1..]
  {
    hide FirstNewline;
    NewlineInConcat(skipped, available + rest);
    NewlineInConcat(available, rest);
  }

  lemma NoNewlineInNothing()
    ensures FirstNewline([]) == None
  {
  }

  lemma NothingLeft(fills: seq<Fill>)
    requires fills == []
    ensures Content(fills) == [] && !Fails(fills) && FirstNewline([]) == None
  {
  }

  lemma StreamEnds(fills: seq<Fill>, frame: seq<Byte>)
    requires fills == [] && NEWLINE !in frame && |frame| <= MAX_FRAME_BYTES
    ensures Content(fills) == [] && !Fails(fills)
    ensures NextFrame(frame + Content(fills), false) == Read(Ok(if frame == [] then Eof else Unterminated), [])
  {
    assert frame + [] == frame;
  }

  lemma StreamFails(frame: seq<Byte>)
    requires NEWLINE !in frame
    ensures NextFrame(frame + [], true) == Read(Err(ReadError.ReadError), [])
  {
    assert frame + [] == frame;
  }

  lemma LineEnds(frame: seq<Byte>, available: seq<Byte>, rest: seq<Byte>, k: nat, fails: bool)
    requires NEWLINE !in frame && FirstNewline(available) == Some(k)
    ensures NextFrame(frame + (available + rest), fails)
         == Read(Ok(if |frame| + k > MAX_FRAME_BYTES then Oversized else Frame(frame + available[..k])), (available + rest)[k + 1..])
  {
    var all := frame + (available + rest);
    NewlineInConcat(available, rest);
    NewlineInConcat(frame, available + rest);
    hide FirstNewline;
    assert all[..|frame| + k] == frame + available[..k] && all[|frame| + k + 1..] == (available + rest)[k + 1..];
  }

  lemma LineGoesOn(frame: seq<Byte>, available: seq<Byte>, rest: seq<Byte>)
    requires NEWLINE !in frame && FirstNewline(available) == None
    ensures NEWLINE !in frame + available && frame + (available + rest) == frame + available + rest
    ensures (available + rest)[|available|..] == rest
  {
    NoneInEither(frame, available);
    Dropped(available, rest);
    Regrouped(frame, available, rest);
  }

  lemma Regrouped(a: seq<Byte>, b: seq<Byte>, c: seq<Byte>)
    ensures a + (b + c) == a + b + c
  {
  }

  lemma NoneInEither(a: seq<Byte>, b: seq<Byte>)
    requires NEWLINE !in a && NEWLINE !in b
    ensures NEWLINE !in a + b
  {
  }

  lemma Dropped(a: seq<Byte>, b: seq<Byte>)
    ensures (a + b)[|a|..] == b
  {
  }

  /** Beyond the bound, the line is over-long wherever it ends. */
  lemma LineIsOver(frame: seq<Byte>, rest: seq<Byte>, fails: bool)
    requires NEWLINE !in frame && |frame| > MAX_FRAME_BYTES
    ensures NextFrame(frame + rest, fails)
         == match FirstNewline(rest)
            case Some(k) => Read(Ok(Oversized), rest[k + 1..])
            case None => if fails then Read(Err(ReadError.ReadError), []) else Read(Ok(Oversized), [])
  {
    NewlineInConcat(frame, rest);
    hide FirstNewline;
    if FirstNewline(rest).Some? {
      var k := FirstNewline(rest).value;
      assert (frame + rest)[|frame| + k + 1..] == rest[k + 1..];
    }
  }

  /** What is left to read, in bytes and pieces. */
  function Measure(fills: seq<Fill>): nat {
    if fills == [] then 0
    else 1 + (if fills[0].Data? then |fills[0].bytes| else 0) + Measure(fills[1..])
  }

  lemma FirstFill(fills: seq<Fill>)
    requires fills != [] && Live(fills)
    ensures Live(fills[1..]) && Measure(fills[1..]) < Measure(fills)
    ensures fills[0].Failed? ==> Content(fills) == [] && Fails(fills)
    ensures !fills[0].Failed? ==> (Fails(fills) <==> Fails(fills[1..]))
    ensures fills[0].Data? ==> fills[0].bytes != [] && Content(fills) == fills[0].bytes + Content(fills[1..])
    ensures fills[0].Retried? ==> Content(fills) == Content(fills[1..])
  {
    if Fails(fills) && !fills[0].Failed? {
      var i :| 0 <= i < |fills| && fills[i].Failed?;
      assert fills[1..][i - 1].Failed?;
    }
    if Fails(fills[1..]) {
      var i :| 0 <= i < |fills[1..]| && fills[1..][i].Failed?;
      assert fills[i + 1].Failed?;
    }
  }

  lemma ConsumeMeaning(before: seq<Fill>, after: seq<Fill>, n: nat)
    requires Live(before) && before != [] && before[0].Data? && n <= |before[0].bytes|
    requires after == if n == |before[0].bytes| then before[1..] else [Data(before[0].bytes[n..])] + before[1..]
    ensures Live(after) && (Fails(after) <==> Fails(before)) && Content(after) == Content(before)[n..]
    ensures n > 0 ==> Measure(after) < Measure(before)
  {
    hide Content, Fails;
    FirstFill(before);
    var rest := Content(before[1..]);
    CutFront(before[0].bytes, rest, n);
    if n < |before[0].bytes| {
      FirstFill(after);
      assert after[1..] == before[1..];
    }
  }

  lemma CutFront(a: seq<Byte>, b: seq<Byte>, n: nat)
    requires n <= |a|
    ensures (a + b)[n..] == a[n..] + b
    ensures n == |a| ==> (a + b)[n..] == b
  {
  }

  // ---------- Repeated reads split at newlines ----------

  /** The frames of repeated reads, up to the end of the stream. */
  function Frames(bytes: seq<Byte>): seq<Frame>
    decreases |bytes|
  {
    if bytes == [] then [] else
    var read := NextFrame(bytes, false);
    [read.frame.value] + Frames(read.rest)
  }

  /** The frames of repeated reads of a stream that ends, or of one that fails after these bytes. */
  function FramesUntil(bytes: seq<Byte>, fails: bool): seq<Frame> {
    if fails then LineFrames(LinesOf(bytes)) else Frames(bytes)
  }

  lemma Regroup(a: seq<Frame>, b: seq<Frame>, c: seq<Frame>)
    ensures a + (b + c) == a + b + c
  {
  }

  /** One read takes the first frame and leaves the rest; where the stream ends or fails nothing is left. */
  lemma FramesStep(bytes: seq<Byte>, fails: bool)
    ensures match NextFrame(bytes, fails).frame
            case Err(_) => fails && FramesUntil(bytes, fails) == []
            case Ok(Eof) => !fails && FramesUntil(bytes, fails) == []
            case Ok(Unterminated) => !fails && FramesUntil(bytes, fails) == [Unterminated]
            case Ok(frame) => |NextFrame(bytes, fails).rest| < |bytes|
                              && FramesUntil(bytes, fails) == [frame] + FramesUntil(NextFrame(bytes, fails).rest, fails)
  {
    hide FirstNewline;
    match FirstNewline(bytes)
    case None =>
      assert LinesOf(bytes) == [];
      assert !fails && bytes != [] ==> Frames(bytes) == [NextFrame(bytes, false).frame.value] + Frames([]);
    case Some(k) =>
      var rest := LinesOf(bytes[k + 1..]);
      assert LinesOf(bytes) == [bytes[..k]] + rest && ([bytes[..k]] + rest)[1..] == rest;
  }

  function LineFrame(line: Line): Frame {
    if |line| > MAX_FRAME_BYTES then Oversized else Frame(line)
  }

  function TailFrames(tail: seq<Byte>): seq<Frame> {
    if tail == [] then [] else if |tail| > MAX_FRAME_BYTES then [Oversized] else [Unterminated]
  }

  function LineFrames(lines: seq<Line>): seq<Frame> {
    if lines == [] then [] else [LineFrame(lines[0])] + LineFrames(lines[1..])
  }

  /**
   Repeated reads are splitting at newlines: each line within the bound is a frame, each longer
   one is reported and skipped, and a tail is reported as unterminated.
   */
  lemma {:induction false} FramesAreLines(lines: seq<Line>, tail: seq<Byte>)
    requires NoNewlines(lines) && NEWLINE !in tail
    ensures Frames(Terminated(lines) + tail) == LineFrames(lines) + TailFrames(tail)
    decreases |lines|
  {
    if lines == [] {
      assert Terminated(lines) + tail == tail;
      if tail != [] {
        assert NextFrame(tail, false).rest == [];
      }
    } else {
      hide Terminated, NextFrame;
      LinesFromFirst(lines, tail);
      FirstLine(lines[0], Terminated(lines[1..]) + tail);
      FramesAreLines(lines[1..], tail);
    }
  }

  lemma FirstLine(line: Line, rest: seq<Byte>)
    requires NEWLINE !in line
    ensures NextFrame(line + ([NEWLINE] + rest), false) == Read(Ok(LineFrame(line)), rest)
  {
    var bytes := line + ([NEWLINE] + rest);
    NewlineInConcat(line, [NEWLINE] + rest);
    assert bytes[..|line|] == line && bytes[|line| + 1..] == rest;
  }

  function LinesOf(bytes: seq<Byte>): seq<Line>
    decreases |bytes|
  {
    match FirstNewline(bytes)
    case None => []
    case Some(k) => [bytes[..k]] + LinesOf(bytes[k + 1..])
  }

  function TailOf(bytes: seq<Byte>): seq<Byte>
    decreases |bytes|
  {
    match FirstNewline(bytes)
    case None => bytes
    case Some(k) => TailOf(bytes[k + 1..])
  }

  /** Every byte string is some lines and a tail, so FramesAreLines covers every stream. */
  lemma {:induction false} EveryStreamIsLines(bytes: seq<Byte>)
    ensures NoNewlines(LinesOf(bytes)) && NEWLINE !in TailOf(bytes) && Terminated(LinesOf(bytes)) + TailOf(bytes) == bytes
    decreases |bytes|
  {
    hide FirstNewline, Terminated, NoNewlines;
    match FirstNewline(bytes)
    case None =>
      NothingTerminated();
      assert [] + bytes == bytes;
    case Some(k) =>
      var rest := bytes[k + 1..];
      EveryStreamIsLines(rest);
      TerminatedFromFirst(bytes[..k], LinesOf(rest));
      Reassembled(bytes, k, Terminated(LinesOf(rest)), TailOf(rest));
  }

  lemma NothingTerminated()
    ensures Terminated([]) == [] && NoNewlines([])
  {
  }

  lemma Reassembled(bytes: seq<Byte>, k: nat, a: seq<Byte>, b: seq<Byte>)
    requires k < |bytes| && bytes[k] == NEWLINE && a + b == bytes[k + 1..]
    ensures bytes[..k] + [NEWLINE] + a + b == bytes
  {
    Regrouped(bytes[..k] + [NEWLINE], a, b);
    assert bytes == bytes[..k] + [NEWLINE] + bytes[k + 1..];
  }

  lemma TerminatedFromFirst(line: Line, lines: seq<Line>)
    ensures Terminated([line] + lines) == line + [NEWLINE] + Terminated(lines)
    ensures NEWLINE !in line && NoNewlines(lines) ==> NoNewlines([line] + lines)
  {
    assert ([line] + lines)[1..] == lines;
  }

  // ---------- The client ----------

  /** Whether handling the last of the lines delivered so far ends the connection. */
  type Stop = seq<Line> -> bool

  datatype Inbox = Inbox(delivered: seq<Line>, buffer: seq<Byte>, terminated: bool)

  /** The lines of the bytes are delivered up to the first over-long one, finished or not. */
  function Walk(delivered: seq<Line>, bytes: seq<Byte>, stop: Stop): Inbox
    decreases |bytes|
  {
    match FirstNewline(bytes)
    case None => Inbox(delivered, bytes, |bytes| > MAX_FRAME_BYTES)
    case Some(k) =>
      if k > MAX_FRAME_BYTES then Inbox(delivered, bytes, true)
      else
        var now := delivered + [bytes[..k]];
        if stop(now) then Inbox(now, bytes[k + 1..], true) else Walk(now, bytes[k + 1..], stop)
  }

  predicate SameInbox(a: Inbox, b: Inbox) {
    a.delivered == b.delivered && a.terminated == b.terminated && (!a.terminated ==> a.buffer == b.buffer)
  }

  class ClientInbox {
    const stop: Stop
    var delivered: seq<Line>
    var buffer: seq<Byte>
    var terminated: bool

    ghost function State(): Inbox
      reads this
    {
      Inbox(delivered, buffer, terminated)
    }

    /** Between chunks the buffer holds the start of one line, within the bound. */
    ghost predicate Valid()
      reads this
    {
      !terminated ==> NEWLINE !in buffer && |buffer| <= MAX_FRAME_BYTES
    }

    constructor (stop: Stop)
      ensures State() == Inbox([], [], false) && Valid() && this.stop == stop
    {
      this.stop, delivered, buffer, terminated := stop, [], [], false;
    }

    /** #onData */
    method OnData(chunk: seq<Byte>)
      requires Valid()
      modifies this
      ensures Valid()
      ensures SameInbox(State(), if old(terminated) then old(State()) else Walk(old(delivered), old(buffer) + chunk, stop))
    {
      if terminated {
        return;
      }
      NewlineInConcat(buffer, chunk);
      if |buffer| + |chunk| > MAX_FRAME_BYTES + 1 && NEWLINE !in chunk {
        terminated := true;
        return;
      }
      ghost var goal := Walk(delivered, buffer + chunk, stop);
      buffer := buffer + chunk;
      while true
        invariant !terminated && Walk(delivered, buffer, stop) == goal
        decreases |buffer|
      {
        var newline := FirstNewline(buffer);
        if newline.None? {
          if |buffer| > MAX_FRAME_BYTES {
            terminated := true;
          }
          return;
        }
        if newline.value > MAX_FRAME_BYTES {
          terminated := true;
          return;
        }
        delivered, buffer := delivered + [buffer[..newline.value]], buffer[newline.value + 1..];
        terminated := stop(delivered);
        if terminated {
          return;
        }
      }
    }
  }

  /** Walking through a and then b is walking through both; what has ended stays ended. */
  lemma {:induction false} WalkConcat(delivered: seq<Line>, a: seq<Byte>, b: seq<Byte>, stop: Stop)
    ensures var one, both := Walk(delivered, a, stop), Walk(delivered, a + b, stop);
            if one.terminated then both.terminated && both.delivered == one.delivered
            else both == Walk(one.delivered, one.buffer + b, stop)
    decreases |a|
  {
    NewlineInConcat(a, b);
    match FirstNewline(a)
    case None =>
    case Some(k) =>
      assert (a + b)[..k] == a[..k] && (a + b)[k + 1..] == a[k + 1..] + b;
      if k <= MAX_FRAME_BYTES && !stop(delivered + [a[..k]]) {
        WalkConcat(delivered + [a[..k]], a[k + 1..], b, stop);
      }
  }

  function Bytes(chunks: seq<seq<Byte>>): seq<Byte>
    decreases |chunks|
  {
    if chunks == [] then [] else Bytes(chunks[..|chunks| - 1]) + chunks[|chunks| - 1]
  }

  /** The inbox after any chunks, each handled as OnData handles it. */
  function Received(chunks: seq<seq<Byte>>, stop: Stop): Inbox
    decreases |chunks|
  {
    if chunks == [] then Inbox([], [], false)
    else
      var before := Received(chunks[..|chunks| - 1], stop);
      if before.terminated then before else Walk(before.delivered, before.buffer + chunks[|chunks| - 1], stop)
  }

  /** What a client has delivered depends on the bytes that arrived and not on how they were cut. */
  lemma {:induction false} ChunkingDoesNotMatter(chunks: seq<seq<Byte>>, stop: Stop)
    ensures SameInbox(Received(chunks, stop), Walk([], Bytes(chunks), stop))
    decreases |chunks|
  {
    if chunks != [] {
      var front := chunks[..|chunks| - 1];
      ChunkingDoesNotMatter(front, stop);
      WalkConcat([], Bytes(front), chunks[|chunks| - 1], stop);
    }
  }

  lemma OneByOne(delivered: seq<Line>, lines: seq<Line>)
    requires lines != []
    ensures delivered + [lines[0]] + lines[1..] == delivered + lines
  {
  }

  lemma LinesFromFirst(lines: seq<Line>, rest: seq<Byte>)
    requires lines != []
    ensures Terminated(lines) + rest == lines[0] + ([NEWLINE] + (Terminated(lines[1..]) + rest))
  {
  }

  lemma WalkOneLine(delivered: seq<Line>, line: Line, after: seq<Byte>, stop: Stop)
    requires NEWLINE !in line && |line| <= MAX_FRAME_BYTES && !stop(delivered + [line])
    ensures Walk(delivered, line + ([NEWLINE] + after), stop) == Walk(delivered + [line], after, stop)
  {
    var bytes := line + ([NEWLINE] + after);
    NewlineInConcat(line, [NEWLINE] + after);
    assert bytes[..|line|] == line && bytes[|line| + 1..] == after;
  }

  /** Each of the lines is within the bound, and handling none of them ends the connection. */
  ghost predicate Pass(delivered: seq<Line>, lines: seq<Line>, stop: Stop) {
    && (forall line <- lines :: |line| <= MAX_FRAME_BYTES)
    && (forall k :: 0 < k <= |lines| ==> !stop(delivered + lines[..k]))
  }

  lemma PassFromFirst(delivered: seq<Line>, lines: seq<Line>, stop: Stop)
    requires Pass(delivered, lines, stop) && lines != []
    ensures |lines[0]| <= MAX_FRAME_BYTES && !stop(delivered + [lines[0]]) && Pass(delivered + [lines[0]], lines[1..], stop)
  {
    assert lines[..1] == [lines[0]];
    forall k | 0 < k <= |lines[1..]|
      ensures !stop(delivered + [lines[0]] + lines[1..][..k])
    {
      assert delivered + [lines[0]] + lines[1..][..k] == delivered + lines[..k + 1];
    }
  }

  /** Lines that pass are delivered, whatever follows them. */
  lemma {:induction false} WalkDeliversLines(delivered: seq<Line>, lines: seq<Line>, rest: seq<Byte>, stop: Stop)
    requires NoNewlines(lines) && Pass(delivered, lines, stop)
    ensures Walk(delivered, Terminated(lines) + rest, stop) == Walk(delivered + lines, rest, stop)
    decreases |lines|
  {
    if lines == [] {
      assert Terminated(lines) + rest == rest;
      assert delivered + lines == delivered;
    } else {
      hide Walk, Terminated, Pass;
      LinesFromFirst(lines, rest);
      PassFromFirst(delivered, lines, stop);
      WalkOneLine(delivered, lines[0], Terminated(lines[1..]) + rest, stop);
      WalkDeliversLines(delivered + [lines[0]], lines[1..], rest, stop);
      OneByOne(delivered, lines);
    }
  }

  /** From an over-long line on nothing is delivered, whether or not it is finished. */
  lemma LongLineEnds(delivered: seq<Line>, lines: seq<Line>, long: Line, rest: seq<Byte>, stop: Stop)
    requires NoNewlines(lines) && Pass(delivered, lines, stop) && NEWLINE !in long && |long| > MAX_FRAME_BYTES
    ensures var inbox := Walk(delivered, Terminated(lines) + (long + rest), stop);
            inbox.terminated && inbox.delivered == delivered + lines
  {
    WalkDeliversLines(delivered, lines, long + rest, stop);
    NewlineInConcat(long, rest);
    hide FirstNewline;
  }

  /** A handler that ends the connection at a line has been given that line and none after it. */
  lemma HandlerEnds(delivered: seq<Line>, lines: seq<Line>, last: Line, rest: seq<Byte>, stop: Stop)
    requires NoNewlines(lines) && Pass(delivered, lines, stop) && NEWLINE !in last && |last| <= MAX_FRAME_BYTES
    requires stop(delivered + lines + [last])
    ensures var inbox := Walk(delivered, Terminated(lines) + (last + ([NEWLINE] + rest)), stop);
            inbox.terminated && inbox.delivered == delivered + lines + [last]
  {
    var bytes := last + ([NEWLINE] + rest);
    WalkDeliversLines(delivered, lines, bytes, stop);
    NewlineInConcat(last, [NEWLINE] + rest);
    assert bytes[..|last|] == last;
    hide FirstNewline;
  }

  /** Lines that pass and a tail within the bound: all are delivered, and the tail is kept for the next chunk. */
  lemma TailIsKept(delivered: seq<Line>, lines: seq<Line>, tail: seq<Byte>, stop: Stop)
    requires NoNewlines(lines) && Pass(delivered, lines, stop) && NEWLINE !in tail && |tail| <= MAX_FRAME_BYTES
    ensures Walk(delivered, Terminated(lines) + tail, stop) == Inbox(delivered + lines, tail, false)
  {
    WalkDeliversLines(delivered, lines, tail, stop);
  }

  /** write_value: a response within the bound, and its newline. */
  function WriteValue(encoded: Line): Result<seq<Byte>, ReadError> {
    if |encoded| > MAX_FRAME_BYTES then Err(ReadError.ReadError) else Ok(encoded + [NEWLINE])
  }

  function WriteAll(values: seq<Line>): seq<Byte> {
    if values == [] then []
    else (match WriteValue(values[0]) case Ok(bytes) => bytes case Err(_) => []) + WriteAll(values[1..])
  }

  /** What the server writes, the client receives, unless handling it ends the connection: every response in order, however the bytes are cut. */
  lemma ResponsesArrive(values: seq<Line>, chunks: seq<seq<Byte>>, stop: Stop)
    requires NoNewlines(values) && (forall v <- values :: |v| <= MAX_FRAME_BYTES)
    requires forall k :: 0 < k <= |values| ==> !stop(values[..k])
    requires Bytes(chunks) == WriteAll(values)
    ensures Received(chunks, stop) == Inbox(values, [], false)
  {
    WritingTerminates(values);
    ChunkingDoesNotMatter(chunks, stop);
    forall k | 0 < k <= |values|
      ensures !stop([] + values[..k])
    {
      assert [] + values[..k] == values[..k];
    }
    TailIsKept([], values, [], stop);
    assert Terminated(values) + [] == Terminated(values) && [] + values == values;
  }

  lemma {:induction false} WritingTerminates(values: seq<Line>)
    requires forall v <- values :: |v| <= MAX_FRAME_BYTES
    ensures WriteAll(values) == Terminated(values)
    decreases |values|
  {
    if values != [] {
      WritingTerminates(values[1..]);
    }
  }
}
