/**
 The private source of a materialized view: subscribe, list, reconcile every listed record,
 catch up with what was delivered meanwhile, activate, then follow live changes one by one.
 Each step is one stretch of code between two awaits; changes may be delivered between any two.
 */
module Reconciler {
  import opened Wrappers
  import opened Texts

  type SessionId = Text

  /** Where a partition stands in its source. */
  datatype Mark = Mark(identity: Text, revision: Text, cursor: Text)

  /** A listed record; its revision and cursor are supplied together or not at all. */
  datatype Record = Record(sessionId: SessionId, identity: Text, at: Option<(Text, Text)>)

  /** serial numbers changes in the order of their delivery. */
  datatype Change = Change(sessionId: SessionId, deletes: bool, serial: nat)

  datatype Effect =
    | Skipped(record: Record, mark: Mark)
    | Replaced(sessionId: SessionId)
    | Deleted(sessionId: SessionId)
    | Ready
    | MarkedFailed

  datatype Phase = Idle | Subscribing | Backfill | CatchingUp | Live | Failed | Disposing | Disposed

  /** Where start() stands. */
  datatype Starter =
    | NotStarted
    | AwaitingSubscription
    | AwaitingList
    | AtBatch(rest: seq<Record>)
    | AwaitingMarks(rest: seq<Record>)
    | InBatch(batch: seq<Record>, marks: map<SessionId, Mark>, rest: seq<Record>)
    | ReplacingRecord(batch: seq<Record>, marks: map<SessionId, Mark>, rest: seq<Record>)
    | CatchUp(pending: seq<Change>)
    | ReplayingChange(pending: seq<Change>)
    | Activating
    | Finished
    | StartFailed

  datatype State = State(
    phase: Phase,
    disposed: bool,
    starter: Starter,
    buffered: seq<Change>,
    // live changes: one in progress at most, the rest in order behind it
    working: bool,
    chain: seq<Change>,
    broken: bool,
    // history: what was listed and sent, and the last change of each session delivered and reconciled
    listed: seq<Record>,
    sent: seq<Effect>,
    delivered: map<SessionId, nat>,
    reconciled: map<SessionId, nat>,
    serial: nat)

  datatype Event =
    | Delivered(s: SessionId, deletes: bool)
    | StartCalled
    | Subscribed
    | Listed(records: seq<Record>)
    | Advances
    | MarksRead(marks: map<SessionId, Mark>, size: nat)
    | Settles(ok: bool, missing: bool)
    | Activated
    | StartThrows
    | ChainBegins
    | ChainSettles(ok: bool, missing: bool)
    | CloseCalled
    | CloseSettles

  const INITIAL := State(Idle, false, NotStarted, [], false, [], false, [], [], map[], map[], 0)

  // ---------- The functions between awaits ----------

  /** Setting a key of the buffer keeps its place, or appends it. */
  function Buffer(buffered: seq<Change>, c: Change): seq<Change> {
    if buffered == [] then [c]
    else if buffered[0].sessionId == c.sessionId then [c] + buffered[1..]
    else [buffered[0]] + Buffer(buffered[1..], c)
  }

  /** scheduleBuffered */
  function Schedule(v: State): State {
    if v.disposed || v.phase != Live || v.buffered == [] then v
    else v.(chain := v.chain + v.buffered, buffered := [])
  }

  /** enqueue */
  function OnDelivered(v: State, s: SessionId, deletes: bool): State {
    if v.disposed then v
    else Schedule(v.(buffered := Buffer(v.buffered, Change(s, deletes, v.serial)),
                     delivered := v.delivered[s := v.serial], serial := v.serial + 1))
  }

  /** canSkip: only an exact match of identity, revision and cursor. */
  predicate CanSkip(r: Record, marks: map<SessionId, Mark>) {
    r.sessionId in marks && r.at.Some?
    && marks[r.sessionId] == Mark(r.identity, r.at.value.0, r.at.value.1)
  }

  /** The catch block of start. */
  function StartFails(v: State): State {
    if v.disposed then v.(starter := StartFailed)
    else v.(starter := StartFailed, phase := Failed, sent := v.sent + [MarkedFailed])
  }

  /** Code of start() that runs without awaiting anything. */
  function OnAdvances(v: State): State {
    match v.starter
    case AtBatch(rest) =>
      if rest == [] then v.(phase := CatchingUp, starter := CatchUp([]))
      else if v.disposed then StartFails(v)
      else v.(starter := AwaitingMarks(rest))
    case InBatch(batch, marks, rest) =>
      if batch == [] then v.(starter := AtBatch(rest))
      else if CanSkip(batch[0], marks) then
        v.(starter := InBatch(batch[1..], marks, rest), sent := v.sent + [Skipped(batch[0], marks[batch[0].sessionId])])
      else if v.disposed then StartFails(v)
      else v.(starter := ReplacingRecord(batch, marks, rest))
    case CatchUp(pending) =>
      if pending != [] then
        if v.disposed && !pending[0].deletes then StartFails(v) else v.(starter := ReplayingChange(pending))
      else if v.buffered != [] then v.(starter := CatchUp(v.buffered), buffered := [])
      else v.(starter := Activating, sent := v.sent + [Ready])
    case _ => v
  }

  /** Reconciling c has ended: its partition was replaced, deleted, or already missing. */
  function Reconcile(v: State, c: Change, missing: bool): State {
    v.(sent := v.sent + (if !c.deletes then [Replaced(c.sessionId)] else if missing then [] else [Deleted(c.sessionId)]),
       reconciled := v.reconciled[c.sessionId := c.serial])
  }

  /** A replacement or a replayed change of start() settles. */
  function OnSettles(v: State, ok: bool, missing: bool): Option<State> {
    match v.starter
    case ReplacingRecord(batch, marks, rest) =>
      if batch == [] then None
      else if !ok then Some(StartFails(v))
      else Some(v.(starter := InBatch(batch[1..], marks, rest), sent := v.sent + [Replaced(batch[0].sessionId)]))
    case ReplayingChange(pending) =>
      if pending == [] then None
      else if !ok then Some(StartFails(v))
      else Some(Reconcile(v, pending[0], missing).(starter := CatchUp(pending[1..])))
    case _ => None
  }

  /** fail: the chain is rejected for good. */
  function ChainFails(v: State): State {
    var now := v.(working := false, broken := true);
    if v.disposed then now else now.(phase := Failed, sent := v.sent + [MarkedFailed])
  }

  function OnChainBegins(v: State): Option<State> {
    if v.working || v.chain == [] then None
    else if v.broken || (v.disposed && !v.chain[0].deletes) then Some(ChainFails(v.(chain := v.chain[1..])))
    else Some(v.(working := true))
  }

  function OnChainSettles(v: State, ok: bool, missing: bool): Option<State> {
    if !v.working || v.chain == [] then None
    else if !ok then Some(ChainFails(v.(chain := v.chain[1..])))
    else Some(Reconcile(v, v.chain[0], missing).(working := false, chain := v.chain[1..]))
  }

  function Next(v: State, e: Event): Option<State> {
    match e
    case Delivered(s, deletes) => Some(OnDelivered(v, s, deletes))
    case StartCalled =>
      if v.disposed || v.starter != NotStarted then None else Some(v.(phase := Subscribing, starter := AwaitingSubscription))
    case Subscribed =>
      if v.starter != AwaitingSubscription then None else Some(v.(phase := Backfill, starter := AwaitingList))
    case Listed(records) =>
      if v.starter != AwaitingList then None else Some(v.(starter := AtBatch(records), listed := records))
    case Advances => Some(OnAdvances(v))
    case MarksRead(marks, size) =>
      if !v.starter.AwaitingMarks? then None
      else
        var n := if size < |v.starter.rest| then size else |v.starter.rest|;
        if n == 0 then None else Some(v.(starter := InBatch(v.starter.rest[..n], marks, v.starter.rest[n..])))
    case Settles(ok, missing) => OnSettles(v, ok, missing)
    case Activated => if v.starter != Activating then None else Some(Schedule(v.(phase := Live, starter := Finished)))
    case StartThrows =>
      if v.starter in {NotStarted, Finished, StartFailed} then None else Some(StartFails(v))
    case ChainBegins => OnChainBegins(v)
    case ChainSettles(ok, missing) => OnChainSettles(v, ok, missing)
    case CloseCalled => Some(if v.disposed then v else v.(disposed := true, phase := Disposing))
    case CloseSettles => if v.disposed then Some(v.(buffered := [], phase := Disposed)) else None
  }

  // ---------- Every listed record is handled before the view is ready ----------

  /** The record was skipped on an exact match, or its partition replaced. */
  ghost predicate Handled(sent: seq<Effect>, r: Record) {
    || (exists i :: 0 <= i < |sent| && sent[i] == Replaced(r.sessionId))
    || (exists i, mark :: 0 <= i < |sent| && sent[i] == Skipped(r, mark) && r.at.Some? && mark == Mark(r.identity, r.at.value.0, r.at.value.1))
  }

  /** The records that start() has still to handle. */
  function Waiting(starter: Starter): seq<Record> {
    match starter
    case AtBatch(rest) => rest
    case AwaitingMarks(rest) => rest
    case InBatch(batch, _, rest) => batch + rest
    case ReplacingRecord(batch, _, rest) => batch + rest
    case _ => []
  }

  predicate Backfilled(starter: Starter) {
    !(starter.NotStarted? || starter.AwaitingSubscription? || starter.AwaitingList? || starter.StartFailed?)
  }

  ghost predicate RecordsInv(v: State) {
    Backfilled(v.starter) ==> forall r <- v.listed :: r in Waiting(v.starter) || Handled(v.sent, r)
  }

  lemma HandledStays(sent: seq<Effect>, more: seq<Effect>, r: Record)
    requires Handled(sent, r)
    ensures Handled(sent + more, r)
  {
    if i :| 0 <= i < |sent| && sent[i] == Replaced(r.sessionId) {
      assert (sent + more)[i] == Replaced(r.sessionId);
    } else {
      var i, mark :| 0 <= i < |sent| && sent[i] == Skipped(r, mark) && r.at.Some? && mark == Mark(r.identity, r.at.value.0, r.at.value.1);
      assert (sent + more)[i] == Skipped(r, mark);
    }
  }

  lemma JustHandled(sent: seq<Effect>, effect: Effect, r: Record)
    requires effect == Replaced(r.sessionId)
             || (effect.Skipped? && effect.record == r && r.at.Some? && effect.mark == Mark(r.identity, r.at.value.0, r.at.value.1))
    ensures Handled(sent + [effect], r)
  {
    assert (sent + [effect])[|sent|] == effect;
  }

  ghost predicate OneMore(sent: seq<Effect>, sent': seq<Effect>) {
    sent' == sent || (|sent'| == |sent| + 1 && sent'[..|sent|] == sent)
  }

  lemma Appended(sent: seq<Effect>, effect: Effect)
    ensures OneMore(sent, sent + [effect]) && OneMore(sent, sent)
  {
  }

  lemma AdvancesSends(v: State)
    ensures OneMore(v.sent, OnAdvances(v).sent) && OnAdvances(v).listed == v.listed
  {
    hide OneMore;
    Appended(v.sent, Ready);
    Appended(v.sent, MarkedFailed);
    if v.starter.InBatch? && v.starter.batch != [] && CanSkip(v.starter.batch[0], v.starter.marks) {
      Appended(v.sent, Skipped(v.starter.batch[0], v.starter.marks[v.starter.batch[0].sessionId]));
    }
  }

  lemma SettlesSends(v: State, ok: bool, missing: bool)
    requires OnSettles(v, ok, missing).Some?
    ensures var w := OnSettles(v, ok, missing).value; OneMore(v.sent, w.sent) && w.listed == v.listed
  {
  }

  lemma ChainSends(v: State, ok: bool, missing: bool)
    ensures OnChainBegins(v).Some? ==> OneMore(v.sent, OnChainBegins(v).value.sent) && OnChainBegins(v).value.listed == v.listed
    ensures OnChainSettles(v, ok, missing).Some? ==>
              OneMore(v.sent, OnChainSettles(v, ok, missing).value.sent) && OnChainSettles(v, ok, missing).value.listed == v.listed
  {
  }

  /** Only the effects grow, one a step; the list does not change once it is read. */
  lemma SentGrows(v: State, e: Event)
    requires Next(v, e).Some?
    ensures OneMore(v.sent, Next(v, e).value.sent)
    ensures Backfilled(v.starter) ==> Next(v, e).value.listed == v.listed
  {
    hide OnAdvances, OnSettles, OnChainBegins, OnChainSettles;
    AdvancesSends(v);
    match e
    case Settles(ok, missing) =>
      if OnSettles(v, ok, missing).Some? {
        SettlesSends(v, ok, missing);
      }
    case ChainBegins => ChainSends(v, true, true);
    case ChainSettles(ok, missing) => ChainSends(v, ok, missing);
    case _ =>
  }

  lemma BatchShrinks(v: State, r: Record)
    requires v.starter.InBatch? && Backfilled(OnAdvances(v).starter) && r in Waiting(v.starter) && r !in Waiting(OnAdvances(v).starter)
    ensures Handled(OnAdvances(v).sent, r)
  {
    hide Handled;
    var batch, rest := v.starter.batch, v.starter.rest;
    if batch != [] {
      assert batch + rest == [batch[0]] + (batch[1..] + rest);
      if CanSkip(batch[0], v.starter.marks) {
        assert r == batch[0];
        JustHandled(v.sent, Skipped(r, v.starter.marks[r.sessionId]), r);
      }
    }
  }

  lemma ReplacingShrinks(v: State, ok: bool, missing: bool, r: Record)
    requires v.starter.ReplacingRecord? && v.starter.batch != [] && ok && r in Waiting(v.starter)
    requires OnSettles(v, ok, missing).Some? && r !in Waiting(OnSettles(v, ok, missing).value.starter)
    ensures Handled(OnSettles(v, ok, missing).value.sent, r)
  {
    hide Handled;
    var batch, rest := v.starter.batch, v.starter.rest;
    assert batch + rest == [batch[0]] + (batch[1..] + rest);
    assert r == batch[0];
    JustHandled(v.sent, Replaced(r.sessionId), r);
  }

  /** A record leaves the waiting list only by being handled. */
  lemma WaitingShrinks(v: State, e: Event, r: Record)
    requires Next(v, e).Some? && Backfilled(v.starter) && Backfilled(Next(v, e).value.starter)
    requires r in Waiting(v.starter) && r !in Waiting(Next(v, e).value.starter)
    ensures Handled(Next(v, e).value.sent, r)
  {
    hide OnAdvances, OnSettles, OnDelivered, Schedule, OnChainBegins, OnChainSettles, Handled;
    WaitingStays(v, e);
    if e == Advances {
      BatchShrinks(v, r);
    } else {
      ReplacingShrinks(v, e.ok, e.missing, r);
    }
  }

  /** Which events can move a starter that has records waiting. */
  lemma WaitingStays(v: State, e: Event)
    requires Next(v, e).Some? && Backfilled(v.starter) && Backfilled(Next(v, e).value.starter)
    requires Waiting(v.starter) != Waiting(Next(v, e).value.starter)
    ensures || (e == Advances && v.starter.InBatch?)
            || (e.Settles? && e.ok && v.starter.ReplacingRecord? && v.starter.batch != [])
  {
    hide OnChainBegins, OnChainSettles, OnDelivered, Schedule, OnAdvances, OnSettles, Waiting;
    StarterStays(v, e);
    AdvanceWaiting(v);
    if e.Settles? {
      SettleWaiting(v, e.ok, e.missing);
    }
    if e.MarksRead? && v.starter.AwaitingMarks? {
      MarksWaiting(v.starter.rest, e.marks, if e.size < |v.starter.rest| then e.size else |v.starter.rest|);
    }
  }

  lemma AdvanceWaiting(v: State)
    ensures v.starter.InBatch? || !Backfilled(OnAdvances(v).starter) || Waiting(OnAdvances(v).starter) == Waiting(v.starter)
  {
  }

  lemma SettleWaiting(v: State, ok: bool, missing: bool)
    requires OnSettles(v, ok, missing).Some?
    ensures (ok && v.starter.ReplacingRecord? && v.starter.batch != []) || !Backfilled(OnSettles(v, ok, missing).value.starter)
            || Waiting(OnSettles(v, ok, missing).value.starter) == Waiting(v.starter)
  {
  }

  lemma MarksWaiting(rest: seq<Record>, marks: map<SessionId, Mark>, n: nat)
    requires n <= |rest|
    ensures Waiting(InBatch(rest[..n], marks, rest[n..])) == Waiting(AwaitingMarks(rest))
  {
  }

  lemma StarterStays(v: State, e: Event)
    ensures e.Delivered? ==> OnDelivered(v, e.s, e.deletes).starter == v.starter
    ensures e.ChainBegins? && OnChainBegins(v).Some? ==> OnChainBegins(v).value.starter == v.starter
    ensures e.ChainSettles? && OnChainSettles(v, e.ok, e.missing).Some? ==> OnChainSettles(v, e.ok, e.missing).value.starter == v.starter
    ensures Schedule(v.(phase := Live, starter := Finished)).starter == Finished && Waiting(Finished) == Waiting(Activating)
  {
  }

  lemma StepKeepsRecords(v: State, e: Event)
    requires RecordsInv(v) && Next(v, e).Some?
    ensures RecordsInv(Next(v, e).value)
  {
    var w := Next(v, e).value;
    SentGrows(v, e);
    if Backfilled(v.starter) && Backfilled(w.starter) {
      forall r <- w.listed
        ensures r in Waiting(w.starter) || Handled(w.sent, r)
      {
        if r in Waiting(v.starter) {
          if r !in Waiting(w.starter) {
            WaitingShrinks(v, e, r);
          }
        } else {
          assert w.sent == v.sent + w.sent[|v.sent|..];
          HandledStays(v.sent, w.sent[|v.sent|..], r);
        }
      }
    } else if Backfilled(w.starter) {
      FirstBackfilled(v, e);
    }
  }

  lemma FirstBackfilled(v: State, e: Event)
    requires Next(v, e).Some? && !Backfilled(v.starter) && Backfilled(Next(v, e).value.starter)
    ensures Waiting(Next(v, e).value.starter) == Next(v, e).value.listed
  {
  }

  // ---------- The last delivered change is the last one reconciled ----------

  /** Changes on their way, in the order in which they will be reconciled. */
  function Outstanding(v: State): seq<Change> {
    Ahead(v) + v.chain + v.buffered
  }

  /** Of one session, later places in the line hold later changes. */
  ghost predicate InOrder(line: seq<Change>) {
    forall i, j :: 0 <= i < j < |line| && line[i].sessionId == line[j].sessionId ==> line[i].serial < line[j].serial
  }

  ghost predicate InLine(line: seq<Change>, s: SessionId, serial: nat) {
    exists i :: 0 <= i < |line| && line[i].sessionId == s && line[i].serial == serial
  }

  /** A change on its way was delivered, and is newer than what was reconciled of its session. */
  predicate Due(c: Change, delivered: map<SessionId, nat>, reconciled: map<SessionId, nat>) {
    && c.sessionId in delivered && c.serial <= delivered[c.sessionId]
    && (c.sessionId in reconciled ==> reconciled[c.sessionId] < c.serial)
  }

  /** Every delivered change is newer than what was reconciled, or it is that; and it is in line or done. */
  ghost predicate LineInv(line: seq<Change>, delivered: map<SessionId, nat>, reconciled: map<SessionId, nat>, serial: nat) {
    && InOrder(line)
    && (forall i :: 0 <= i < |line| ==> Due(line[i], delivered, reconciled))
    && (forall s <- delivered :: delivered[s] < serial)
    && (forall s <- reconciled :: s in delivered && reconciled[s] <= delivered[s])
    && (forall s <- delivered :: InLine(line, s, delivered[s]) || (s in reconciled && reconciled[s] == delivered[s]))
  }

  /** Nothing has failed and the source is not closed. */
  predicate Healthy(v: State) {
    !v.disposed && !v.broken && !v.starter.StartFailed?
  }

  ghost predicate ShapeInv(v: State) {
    && (v.phase == Live && !v.disposed ==> v.starter == Finished && v.buffered == [])
    && (v.chain != [] || v.working || v.broken ==> v.starter == Finished)
    && (v.starter == Finished && Healthy(v) ==> v.phase == Live)
    && (v.broken ==> !v.working && (!v.disposed ==> v.phase == Failed))
    && (forall i, j :: 0 <= i < j < |v.buffered| ==> v.buffered[i].sessionId != v.buffered[j].sessionId)
  }

  ghost predicate ChangesInv(v: State) {
    Healthy(v) ==> LineInv(Outstanding(v), v.delivered, v.reconciled, v.serial)
  }

  lemma {:induction false} BufferKeeps(buffered: seq<Change>, c: Change)
    requires forall i, j :: 0 <= i < j < |buffered| ==> buffered[i].sessionId != buffered[j].sessionId
    ensures var b := Buffer(buffered, c);
            && (forall i, j :: 0 <= i < j < |b| ==> b[i].sessionId != b[j].sessionId)
            && (forall x :: x in b <==> x == c || (x in buffered && x.sessionId != c.sessionId))
            && c in b && |b| > 0
    decreases |buffered|
  {
    if buffered == [] {
      assert Buffer(buffered, c) == [c];
    } else {
      var first, rest := buffered[0], buffered[1..];
      assert buffered == [first] + rest;
      assert forall x <- rest :: x.sessionId != first.sessionId;
      if first.sessionId == c.sessionId {
        assert Buffer(buffered, c) == [c] + rest;
      } else {
        BufferKeeps(rest, c);
        assert Buffer(buffered, c) == [first] + Buffer(rest, c);
        assert forall j :: 0 <= j < |Buffer(rest, c)| ==> Buffer(rest, c)[j] in Buffer(rest, c);
      }
    }
  }

  /** A new change enters the line behind everything of its session, and supersedes what was only buffered. */
  lemma LineGrows(ahead: seq<Change>, buffered: seq<Change>, c: Change, delivered: map<SessionId, nat>, reconciled: map<SessionId, nat>, serial: nat)
    requires LineInv(ahead + buffered, delivered, reconciled, serial) && c.serial == serial
    requires forall i, j :: 0 <= i < j < |buffered| ==> buffered[i].sessionId != buffered[j].sessionId
    ensures LineInv(ahead + Buffer(buffered, c), delivered[c.sessionId := serial], reconciled, serial + 1)
  {
    var b := Buffer(buffered, c);
    var line, line' := ahead + buffered, ahead + b;
    var delivered' := delivered[c.sessionId := serial];
    hide InLine, InOrder, Buffer, Due;
    forall i | 0 <= i < |line'|
      ensures Due(line'[i], delivered', reconciled)
    {
      PlaceInLine(ahead, buffered, c, delivered, reconciled, serial, i);
    }
    forall i, j | 0 <= i < j < |line'| && line'[i].sessionId == line'[j].sessionId
      ensures line'[i].serial < line'[j].serial
    {
      OrderAfterBuffer(ahead, buffered, c, i, j, delivered, reconciled, serial);
    }
    assert InOrder(line') by {
      OrderOf(line');
    }
    forall s <- delivered'
      ensures InLine(line', s, delivered'[s]) || (s in reconciled && reconciled[s] == delivered'[s])
    {
      if s == c.sessionId {
        NewInLine(ahead, buffered, c);
      } else if InLine(line, s, delivered[s]) {
        StillInLine(ahead, buffered, c, s, delivered[s]);
      }
    }
  }

  lemma OrderOf(line: seq<Change>)
    requires forall i, j :: 0 <= i < j < |line| && line[i].sessionId == line[j].sessionId ==> line[i].serial < line[j].serial
    ensures InOrder(line)
  {
  }

  lemma PlaceInLine(ahead: seq<Change>, buffered: seq<Change>, c: Change, delivered: map<SessionId, nat>, reconciled: map<SessionId, nat>, serial: nat, i: nat)
    requires LineInv(ahead + buffered, delivered, reconciled, serial) && c.serial == serial
    requires forall i, j :: 0 <= i < j < |buffered| ==> buffered[i].sessionId != buffered[j].sessionId
    requires i < |ahead + Buffer(buffered, c)|
    ensures Due((ahead + Buffer(buffered, c))[i], delivered[c.sessionId := serial], reconciled)
  {
    hide InLine, InOrder, Buffer;
    OldOrNew(ahead, buffered, c, i);
    var x, line := (ahead + Buffer(buffered, c))[i], ahead + buffered;
    if x != c {
      var k :| 0 <= k < |line| && line[k] == x;
    }
  }

  lemma OldOrNew(ahead: seq<Change>, buffered: seq<Change>, c: Change, i: nat)
    requires i < |ahead + Buffer(buffered, c)|
    requires forall i, j :: 0 <= i < j < |buffered| ==> buffered[i].sessionId != buffered[j].sessionId
    ensures var x := (ahead + Buffer(buffered, c))[i]; x == c || x in ahead + buffered
  {
    var b := Buffer(buffered, c);
    BufferKeeps(buffered, c);
    if i >= |ahead| {
      assert (ahead + b)[i] == b[i - |ahead|] && b[i - |ahead|] in b;
    } else {
      assert (ahead + b)[i] == ahead[i];
    }
  }

  lemma NewInLine(ahead: seq<Change>, buffered: seq<Change>, c: Change)
    requires forall i, j :: 0 <= i < j < |buffered| ==> buffered[i].sessionId != buffered[j].sessionId
    ensures InLine(ahead + Buffer(buffered, c), c.sessionId, c.serial)
  {
    var b := Buffer(buffered, c);
    BufferKeeps(buffered, c);
    var k :| 0 <= k < |b| && b[k] == c;
    assert (ahead + b)[|ahead| + k] == c;
  }

  lemma StillInLine(ahead: seq<Change>, buffered: seq<Change>, c: Change, s: SessionId, serial: nat)
    requires InLine(ahead + buffered, s, serial) && s != c.sessionId
    requires forall i, j :: 0 <= i < j < |buffered| ==> buffered[i].sessionId != buffered[j].sessionId
    ensures InLine(ahead + Buffer(buffered, c), s, serial)
  {
    var line, b := ahead + buffered, Buffer(buffered, c);
    var i :| 0 <= i < |line| && line[i].sessionId == s && line[i].serial == serial;
    BufferKeeps(buffered, c);
    if i < |ahead| {
      assert (ahead + b)[i] == line[i];
    } else {
      assert line[i] in buffered && line[i] in b;
      var k :| 0 <= k < |b| && b[k] == line[i];
      assert (ahead + b)[|ahead| + k] == line[i];
    }
  }

  lemma OrderAfterBuffer(ahead: seq<Change>, buffered: seq<Change>, c: Change, i: nat, j: nat, delivered: map<SessionId, nat>, reconciled: map<SessionId, nat>, serial: nat)
    requires LineInv(ahead + buffered, delivered, reconciled, serial) && c.serial == serial
    requires forall i, j :: 0 <= i < j < |buffered| ==> buffered[i].sessionId != buffered[j].sessionId
    requires var line' := ahead + Buffer(buffered, c); i < j < |line'| && line'[i].sessionId == line'[j].sessionId
    ensures var line' := ahead + Buffer(buffered, c); line'[i].serial < line'[j].serial
  {
    var b := Buffer(buffered, c);
    var line, line' := ahead + buffered, ahead + b;
    BufferKeeps(buffered, c);
    if j < |ahead| {
      assert line[i] == line'[i] && line[j] == line'[j];
    } else if i < |ahead| {
      assert line'[j] == b[j - |ahead|] && b[j - |ahead|] in b && line'[i] == line[i];
      if line'[j] != c {
        var k :| 0 <= k < |buffered| && buffered[k] == line'[j];
        assert line[|ahead| + k] == line'[j];
      }
    } else {
      DistinctInBuffer(ahead, b, i, j);
    }
  }

  lemma DistinctInBuffer(ahead: seq<Change>, b: seq<Change>, i: nat, j: nat)
    requires |ahead| <= i < j < |ahead + b|
    requires forall x, y :: 0 <= x < y < |b| ==> b[x].sessionId != b[y].sessionId
    ensures (ahead + b)[i].sessionId != (ahead + b)[j].sessionId
  {
    assert (ahead + b)[i] == b[i - |ahead|] && (ahead + b)[j] == b[j - |ahead|];
  }

  /** The head of the line is reconciled. */
  lemma LineAdvances(line: seq<Change>, delivered: map<SessionId, nat>, reconciled: map<SessionId, nat>, serial: nat)
    requires LineInv(line, delivered, reconciled, serial) && line != []
    ensures LineInv(line[1..], delivered, reconciled[line[0].sessionId := line[0].serial], serial)
  {
    var c := line[0];
    RestInOrder(line);
    forall s <- delivered
      ensures InLine(line[1..], s, delivered[s]) || (if s == c.sessionId then c.serial == delivered[s] else s in reconciled && reconciled[s] == delivered[s])
    {
      StillToCome(line, delivered, reconciled, serial, s);
    }
    hide InLine, InOrder, Due;
    forall i | 0 <= i < |line[1..]|
      ensures Due(line[1..][i], delivered, reconciled[c.sessionId := c.serial])
    {
      RestIsDue(line, delivered, reconciled, i);
    }
    HeadIsDue(line, delivered, reconciled);
  }

  lemma HeadIsDue(line: seq<Change>, delivered: map<SessionId, nat>, reconciled: map<SessionId, nat>)
    requires line != [] && Due(line[0], delivered, reconciled)
    ensures line[0].sessionId in delivered && line[0].serial <= delivered[line[0].sessionId]
  {
  }

  lemma RestIsDue(line: seq<Change>, delivered: map<SessionId, nat>, reconciled: map<SessionId, nat>, i: nat)
    requires InOrder(line) && i + 1 < |line| && Due(line[i + 1], delivered, reconciled)
    ensures Due(line[1..][i], delivered, reconciled[line[0].sessionId := line[0].serial])
  {
  }

  /** Behind the head, changes stay in order, and those of its session are newer. */
  lemma RestInOrder(line: seq<Change>)
    requires InOrder(line) && line != []
    ensures InOrder(line[1..])
    ensures forall i :: 0 <= i < |line[1..]| && line[1..][i].sessionId == line[0].sessionId ==> line[0].serial < line[1..][i].serial
  {
    assert forall i :: 0 <= i < |line[1..]| ==> line[1..][i] == line[i + 1];
  }

  lemma StillToCome(line: seq<Change>, delivered: map<SessionId, nat>, reconciled: map<SessionId, nat>, serial: nat, s: SessionId)
    requires LineInv(line, delivered, reconciled, serial) && line != [] && s in delivered
    ensures InLine(line[1..], s, delivered[s])
            || (if s == line[0].sessionId then line[0].serial == delivered[s] else s in reconciled && reconciled[s] == delivered[s])
  {
    hide InOrder;
    if InLine(line, s, delivered[s]) {
      var i :| 0 <= i < |line| && line[i].sessionId == s && line[i].serial == delivered[s];
      if i > 0 {
        assert line[1..][i - 1] == line[i];
      }
    }
  }

  lemma StepKeepsShape(v: State, e: Event)
    requires ShapeInv(v) && Next(v, e).Some?
    ensures ShapeInv(Next(v, e).value)
  {
    hide OnAdvances, OnSettles, OnChainBegins, OnChainSettles;
    match e
    case Delivered(s, deletes) =>
      BufferKeeps(v.buffered, Change(s, deletes, v.serial));
    case Advances => AdvanceKeepsShape(v);
    case Settles(ok, missing) => SettleKeepsShape(v, ok, missing);
    case ChainBegins => ChainKeepsShape(v, true, true);
    case ChainSettles(ok, missing) => ChainKeepsShape(v, ok, missing);
    case _ =>
  }

  lemma AdvanceKeepsShape(v: State)
    requires ShapeInv(v)
    ensures ShapeInv(OnAdvances(v))
  {
  }

  lemma SettleKeepsShape(v: State, ok: bool, missing: bool)
    requires ShapeInv(v)
    ensures OnSettles(v, ok, missing).Some? ==> ShapeInv(OnSettles(v, ok, missing).value)
  {
  }

  lemma ChainKeepsShape(v: State, ok: bool, missing: bool)
    requires ShapeInv(v)
    ensures OnChainBegins(v).Some? ==> ShapeInv(OnChainBegins(v).value)
    ensures OnChainSettles(v, ok, missing).Some? ==> ShapeInv(OnChainSettles(v, ok, missing).value)
  {
  }

  lemma DeliveryKeepsChanges(v: State, s: SessionId, deletes: bool)
    requires ShapeInv(v) && ChangesInv(v)
    ensures ChangesInv(OnDelivered(v, s, deletes))
  {
    hide LineInv, Buffer;
    if Healthy(v) {
      var c := Change(s, deletes, v.serial);
      LineGrows(Ahead(v) + v.chain, v.buffered, c, v.delivered, v.reconciled, v.serial);
      DeliveredToTheEnd(v, s, deletes);
    }
  }

  /** What start() has taken out of the buffer and not yet reconciled. */
  function Ahead(v: State): seq<Change> {
    match v.starter
    case CatchUp(pending) => pending
    case ReplayingChange(pending) => pending
    case _ => []
  }

  lemma DeliveredToTheEnd(v: State, s: SessionId, deletes: bool)
    requires !v.disposed
    ensures var w := OnDelivered(v, s, deletes);
            Outstanding(w) == Ahead(v) + v.chain + Buffer(v.buffered, Change(s, deletes, v.serial))
            && w.delivered == v.delivered[s := v.serial] && w.reconciled == v.reconciled && w.serial == v.serial + 1
            && w.starter == v.starter && w.broken == v.broken
  {
    hide Buffer;
  }

  /** A step that is no delivery and settles no change leaves the line as it is. */
  predicate SettlesChange(v: State, e: Event) {
    (e.Settles? && v.starter.ReplayingChange?) || e.ChainSettles?
  }

  ghost predicate SameLine(v: State, w: State) {
    Healthy(v) && Outstanding(w) == Outstanding(v) && w.delivered == v.delivered && w.reconciled == v.reconciled && w.serial == v.serial
  }

  lemma AdvanceKeepsLine(v: State)
    requires ShapeInv(v) && Healthy(OnAdvances(v))
    ensures SameLine(v, OnAdvances(v))
  {
    if v.starter == CatchUp([]) && v.buffered != [] {
      BufferBecomesPending(v);
    } else {
      hide CanSkip, ShapeInv;
      assert OnAdvances(v).starter.StartFailed? || Ahead(OnAdvances(v)) == Ahead(v);
    }
  }

  lemma BufferBecomesPending(v: State)
    requires ShapeInv(v) && v.starter == CatchUp([])
    ensures Outstanding(v.(starter := CatchUp(v.buffered), buffered := [])) == Outstanding(v)
  {
    assert v.chain == [];
  }

  lemma ReplacedKeepsLine(v: State, ok: bool, missing: bool)
    requires OnSettles(v, ok, missing).Some? && !v.starter.ReplayingChange? && Healthy(OnSettles(v, ok, missing).value)
    ensures SameLine(v, OnSettles(v, ok, missing).value)
  {
  }

  lemma ChainBeginKeepsLine(v: State)
    requires OnChainBegins(v).Some? && Healthy(OnChainBegins(v).value)
    ensures SameLine(v, OnChainBegins(v).value)
  {
  }

  lemma LineStays(v: State, e: Event)
    requires ShapeInv(v) && Next(v, e).Some? && !e.Delivered? && !SettlesChange(v, e) && Healthy(Next(v, e).value)
    ensures SameLine(v, Next(v, e).value)
  {
    hide OnAdvances, OnSettles, OnChainBegins, OnChainSettles;
    match e
    case Advances => AdvanceKeepsLine(v);
    case Settles(ok, missing) => ReplacedKeepsLine(v, ok, missing);
    case ChainBegins => ChainBeginKeepsLine(v);
    case _ =>
  }

  lemma LineSettles(v: State, e: Event)
    requires ShapeInv(v) && Next(v, e).Some? && SettlesChange(v, e) && Healthy(Next(v, e).value)
    ensures Healthy(v) && Outstanding(v) != []
    ensures var w, c := Next(v, e).value, Outstanding(v)[0];
            Outstanding(w) == Outstanding(v)[1..] && w.delivered == v.delivered && w.reconciled == v.reconciled[c.sessionId := c.serial] && w.serial == v.serial
  {
  }

  lemma StepKeepsChanges(v: State, e: Event)
    requires ShapeInv(v) && ChangesInv(v) && Next(v, e).Some?
    ensures ChangesInv(Next(v, e).value)
  {
    hide LineInv, ShapeInv;
    if e.Delivered? {
      DeliveryKeepsChanges(v, e.s, e.deletes);
    } else if Healthy(Next(v, e).value) {
      hide Next, Outstanding;
      if SettlesChange(v, e) {
        LineSettles(v, e);
        LineAdvances(Outstanding(v), v.delivered, v.reconciled, v.serial);
      } else {
        LineStays(v, e);
      }
    }
  }

  // ---------- Runs ----------

  ghost predicate Inv(v: State) {
    RecordsInv(v) && ShapeInv(v) && ChangesInv(v)
  }

  ghost predicate Run(states: seq<State>, events: seq<Event>) {
    && |states| == |events| + 1
    && states[0] == INITIAL
    && forall i :: 0 <= i < |events| ==> Next(states[i], events[i]) == Some(states[i + 1])
  }

  lemma InitialInv()
    ensures Inv(INITIAL)
  {
  }

  lemma {:induction false} RunKeepsInv(states: seq<State>, events: seq<Event>, n: nat)
    requires Run(states, events) && n < |states|
    ensures Inv(states[n])
    decreases n
  {
    hide Next, RecordsInv, ShapeInv, ChangesInv;
    if n == 0 {
      InitialInv();
    } else {
      RunKeepsInv(states, events, n - 1);
      assert Next(states[n - 1], events[n - 1]) == Some(states[n - 1 + 1]);
      StepKeepsRecords(states[n - 1], events[n - 1]);
      StepKeepsShape(states[n - 1], events[n - 1]);
      StepKeepsChanges(states[n - 1], events[n - 1]);
    }
  }

  predicate Sends(v: State, w: State, effect: Effect) {
    w.sent == v.sent + [effect]
  }

  /**
   The view is declared ready only once every listed record was skipped on an exact match or
   replaced, and with no change buffered at that instant.
   */
  lemma ReadyMeansReconciled(states: seq<State>, events: seq<Event>, n: nat)
    requires Run(states, events) && n < |events| && Sends(states[n], states[n + 1], Ready)
    ensures states[n].buffered == [] && forall r <- states[n].listed :: Handled(states[n].sent, r)
  {
    RunKeepsInv(states, events, n);
    ReadyComesLast(states[n], events[n], states[n + 1]);
  }

  lemma ReadyComesLast(v: State, e: Event, w: State)
    requires Next(v, e) == Some(w) && Sends(v, w, Ready)
    ensures v.starter == CatchUp([]) && v.buffered == []
  {
    OnlyAdvancingIsReady(v, e, w);
    AdvancingToReady(v);
    LastSent(v, w, Ready);
    hide OnAdvances, Next, Sends;
  }

  lemma LastSent(v: State, w: State, effect: Effect)
    requires Sends(v, w, effect)
    ensures |w.sent| == |v.sent| + 1 && w.sent[|v.sent|] == effect
  {
  }

  /** Nothing was sent, or something that is no declaration of readiness. */
  predicate NotReady(v: State, w: State) {
    w.sent == v.sent || (|w.sent| == |v.sent| + 1 && w.sent[|v.sent|] != Ready)
  }

  lemma AdvancingToReady(v: State)
    ensures NotReady(v, OnAdvances(v)) || (v.starter == CatchUp([]) && v.buffered == [])
  {
  }

  lemma SettlingIsNotReady(v: State, ok: bool, missing: bool)
    ensures OnSettles(v, ok, missing).Some? ==> NotReady(v, OnSettles(v, ok, missing).value)
  {
  }

  lemma ChainIsNotReady(v: State, ok: bool, missing: bool)
    ensures OnChainBegins(v).Some? ==> NotReady(v, OnChainBegins(v).value)
    ensures OnChainSettles(v, ok, missing).Some? ==> NotReady(v, OnChainSettles(v, ok, missing).value)
  {
  }

  lemma OnlyAdvancingIsReady(v: State, e: Event, w: State)
    requires Next(v, e) == Some(w) && Sends(v, w, Ready)
    ensures e == Advances && w == OnAdvances(v)
  {
    hide OnAdvances, OnSettles, OnChainBegins, OnChainSettles, Sends;
    LastSent(v, w, Ready);
    match e
    case Settles(ok, missing) => SettlingIsNotReady(v, ok, missing);
    case ChainBegins => ChainIsNotReady(v, true, true);
    case ChainSettles(ok, missing) => ChainIsNotReady(v, ok, missing);
    case _ =>
  }

  predicate AtRest(v: State) {
    v.starter == Finished && v.chain == [] && !v.working
  }

  /**
   For each session the last change delivered is the last one reconciled, whenever a source that
   has not failed and is not closed is at rest: also for changes delivered during activation.
   */
  lemma LastDeliveredIsLastReconciled(states: seq<State>, events: seq<Event>, n: nat, s: SessionId)
    requires Run(states, events) && n < |states| && Healthy(states[n]) && AtRest(states[n]) && s in states[n].delivered
    ensures s in states[n].reconciled && states[n].reconciled[s] == states[n].delivered[s]
  {
    RunKeepsInv(states, events, n);
    assert Outstanding(states[n]) == [];
  }

  predicate PartitionMutation(effect: Effect) {
    effect.Replaced? || effect.Deleted?
  }

  /** After a failed live reconciliation no partition is changed any more. */
  lemma {:induction false} NoMutationAfterFailure(states: seq<State>, events: seq<Event>, n: nat, m: nat)
    requires Run(states, events) && n <= m < |states| && states[n].broken
    ensures states[m].broken && states[n].sent <= states[m].sent
    ensures forall i :: |states[n].sent| <= i < |states[m].sent| ==> !PartitionMutation(states[m].sent[i])
    decreases m
  {
    hide Next;
    if n < m {
      NoMutationAfterFailure(states, events, n, m - 1);
      RunKeepsInv(states, events, m - 1);
      assert Next(states[m - 1], events[m - 1]) == Some(states[m - 1 + 1]);
      BrokenStaysQuiet(states[m - 1], events[m - 1], states[m]);
    }
  }

  lemma BrokenStaysQuiet(v: State, e: Event, w: State)
    requires ShapeInv(v) && v.broken && Next(v, e) == Some(w)
    ensures w.broken && v.sent <= w.sent && forall i :: |v.sent| <= i < |w.sent| ==> !PartitionMutation(w.sent[i])
  {
  }

  lemma RunGoesOn(states: seq<State>, events: seq<Event>, e: Event, w: State)
    requires Run(states, events) && Next(states[|states| - 1], e) == Some(w)
    ensures Run(states + [w], events + [e])
  {
    hide Next;
  }

  lemma StartingRun() returns (states: seq<State>, events: seq<Event>)
    ensures Run(states, events) && |states| > 0
    ensures states[|states| - 1] == INITIAL.(phase := CatchingUp, starter := Activating, sent := [Ready])
  {
    var s1 := INITIAL.(phase := Subscribing, starter := AwaitingSubscription);
    var s2 := s1.(phase := Backfill, starter := AwaitingList);
    var s3 := s2.(starter := AtBatch([]));
    var s4 := s3.(phase := CatchingUp, starter := CatchUp([]));
    var s5 := s4.(starter := Activating, sent := [Ready]);
    assert s4.sent + [Ready] == s5.sent;
    hide Run;
    states, events := [INITIAL], [];
    assert Run(states, events) by {
      EmptyRun();
    }
    RunGoesOn(states, events, StartCalled, s1);
    states, events := states + [s1], events + [StartCalled];
    RunGoesOn(states, events, Subscribed, s2);
    states, events := states + [s2], events + [Subscribed];
    RunGoesOn(states, events, Listed([]), s3);
    states, events := states + [s3], events + [Listed([])];
    RunGoesOn(states, events, Advances, s4);
    states, events := states + [s4], events + [Advances];
    RunGoesOn(states, events, Advances, s5);
    states, events := states + [s5], events + [Advances];
  }

  lemma EmptyRun()
    ensures Run([INITIAL], [])
  {
  }

  /** Such runs exist: here a change is delivered while the view is being activated, and reconciled after. */
  lemma ActivationRun(s: SessionId) returns (states: seq<State>, events: seq<Event>)
    ensures Run(states, events) && |states| > 0
    ensures var v := states[|states| - 1]; Healthy(v) && AtRest(v) && s in v.delivered && v.sent == [Ready, Replaced(s)]
  {
    hide Run;
    states, events := StartingRun();
    var c := Change(s, false, 0);
    var s6 := states[|states| - 1].(buffered := [c], delivered := map[s := 0], serial := 1);
    var s7 := s6.(phase := Live, starter := Finished, buffered := [], chain := [c]);
    var s8 := s7.(working := true);
    var s9 := s8.(working := false, chain := [], sent := [Ready, Replaced(s)], reconciled := map[s := 0]);
    assert map[][s := 0] == map[s := 0] && [] + [c] == [c];
    assert s8.sent + [Replaced(s)] == s9.sent && s8.chain[1..] == [];
    RunGoesOn(states, events, Delivered(s, false), s6);
    states, events := states + [s6], events + [Delivered(s, false)];
    RunGoesOn(states, events, Activated, s7);
    states, events := states + [s7], events + [Activated];
    RunGoesOn(states, events, ChainBegins, s8);
    states, events := states + [s8], events + [ChainBegins];
    RunGoesOn(states, events, ChainSettles(true, false), s9);
    states, events := states + [s9], events + [ChainSettles(true, false)];
  }
}
