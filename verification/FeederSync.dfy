/**
 One synchronization of the feeder: a session from its durable cursor to the end of its
 log, a whole corpus of sessions, and what a crash between two chunks leaves to do.
 */
module FeederSync {
  import opened Wrappers
  import opened Texts
  import opened Ingest
  import opened IngestTheorems
  import opened Chunking
  import opened Feeder

  /** The event count and workspace that a production snapshot states without being projected. */
  datatype Snapshot = Snapshot(eventCount: nat, workspaceId: Text)

  /** One read of a session: its snapshot, if it has the production shape, and what projecting it gives. */
  datatype Reading = Reading(snapshot: Option<Snapshot>, projected: Option<seq<Document>>)

  datatype Done = Done

  function Cursor(durable: Option<Session>): nat {
    if durable.None? then 0 else durable.value.nextSeq
  }

  function Lookup(t: Tables, s: Text): Option<Session> {
    if s in t.sessions then Some(t.sessions[s]) else None
  }

  datatype Plan = Finish(answer: Result<Done, FeedError>) | Send(suffix: seq<Document>)

  /** What is decided about a session before anything is sent. */
  function PlanFor(reading: Reading, durable: Option<Session>): Plan {
    if durable.Some? && reading.snapshot.Some? && Cursor(durable) > reading.snapshot.value.eventCount then
      Finish(Err(SourceShorterThanCursor))
    else if durable.Some? && reading.snapshot.Some? && Cursor(durable) == reading.snapshot.value.eventCount then
      Finish(if reading.snapshot.value.workspaceId == durable.value.workspaceId then Ok(Done.Done) else Err(WorkspaceMismatch))
    else if reading.projected.None? then
      Finish(Err(ProjectionFailed))
    else
      var documents := reading.projected.value;
      if Cursor(durable) > |documents| then Finish(Err(SourceShorterThanCursor))
      else if durable.Some? && documents != [] && durable.value.workspaceId != documents[0].workspaceId then Finish(Err(WorkspaceMismatch))
      else Send(documents[Cursor(durable)..])
  }

  datatype Limits = Limits(size: Measure, maxDocuments: nat, maxBytes: nat)

  ghost predicate ValidLimits(limits: Limits) {
    1 <= limits.maxDocuments <= MAX_FEED_DOCUMENTS && 1_024 <= limits.maxBytes <= 900 * 1_024
  }

  ghost predicate SentInChunks(f: Feed, suffix: seq<Document>, limits: Limits, f': Feed, r: Result<Done, FeedError>) {
    exists chunks ::
      && GreedyCut(suffix, chunks, limits.size, limits.maxDocuments, limits.maxBytes)
      && f' == CommitChunks(f, chunks).feed
      && r == (match CommitChunks(f, chunks).error case None => Ok(Done.Done) case Some(e) => Err(e))
  }

  /** A session synchronization takes f to f' and answers r. */
  ghost predicate SessionSynced(f: Feed, reading: Reading, durable: Option<Session>, limits: Limits, f': Feed, r: Result<Done, FeedError>) {
    match PlanFor(reading, durable)
    case Finish(answer) => f' == f && r == answer
    case Send(suffix) =>
      if Oversize(suffix, limits.size, limits.maxBytes) then f' == f && r == Err(OversizedEvent)
      else SentInChunks(f, suffix, limits, f', r)
  }

  // ---------- The client ----------

  class Client {
    const index: SessionIndex
    const limits: Limits
    var watermark: nat
    var committed: nat

    ghost function State(): Feed
      reads this, index
    {
      Feed(index.State(), watermark, committed)
    }

    constructor (index: SessionIndex, limits: Limits)
      requires ValidLimits(limits)
      ensures this.index == index && this.limits == limits
      ensures State() == Feed(index.State(), 0, 0)
    {
      this.index, this.limits, this.watermark, this.committed := index, limits, 0, 0;
    }

    method Commit(docs: seq<Document>) returns (r: Result<Done, FeedError>)
      modifies this, index
      ensures var fed := CommitChunk(old(State()), docs);
              State() == fed.feed && r == match fed.error case None => Ok(Done.Done) case Some(e) => Err(e)
    {
      if |docs| == 0 {
        return Ok(Done.Done);
      }
      if watermark + 1 > MAX_SQLITE_INTEGER {
        return Err(WatermarkExhausted);
      }
      var receipt := index.ApplyBatch(BatchOf(watermark + 1, docs));
      if receipt.Err? {
        return Err(Refused(receipt.error));
      }
      if receipt.value.watermark < watermark {
        return Err(WatermarkMovedBackwards);
      }
      watermark := receipt.value.watermark;
      committed := committed + |docs|;
      return Ok(Done.Done);
    }

    /** The part of #syncSession before anything is sent. */
    static method Inspect(reading: Reading, durable: Option<Session>) returns (plan: Plan)
      ensures plan == PlanFor(reading, durable)
    {
      if durable.Some? && reading.snapshot.Some? {
        if durable.value.nextSeq > reading.snapshot.value.eventCount {
          return Finish(Err(SourceShorterThanCursor));
        }
        if durable.value.nextSeq == reading.snapshot.value.eventCount {
          if reading.snapshot.value.workspaceId != durable.value.workspaceId {
            return Finish(Err(WorkspaceMismatch));
          }
          return Finish(Ok(Done.Done));
        }
      }
      if reading.projected.None? {
        return Finish(Err(ProjectionFailed));
      }
      var documents := reading.projected.value;
      var nextSeq := if durable.None? then 0 else durable.value.nextSeq;
      if nextSeq > |documents| {
        return Finish(Err(SourceShorterThanCursor));
      }
      if durable.Some? && |documents| > 0 && durable.value.workspaceId != documents[0].workspaceId {
        return Finish(Err(WorkspaceMismatch));
      }
      return Send(documents[nextSeq..]);
    }

    /** The loop of #syncSession over the chunks. */
    method CommitAll(chunks: seq<seq<Document>>) returns (r: Result<Done, FeedError>)
      modifies this, index
      ensures State() == CommitChunks(old(State()), chunks).feed
      ensures r == match CommitChunks(old(State()), chunks).error case None => Ok(Done.Done) case Some(e) => Err(e)
    {
      hide CommitChunk;
      for n := 0 to |chunks|
        invariant CommitChunks(old(State()), chunks[..n]) == Fed(State(), None)
      {
        assert chunks[..n + 1][..n] == chunks[..n];
        var committed := Commit(chunks[n]);
        if committed.Err? {
          CommitStops(old(State()), chunks, n + 1);
          return Err(committed.error);
        }
      }
      assert chunks[..|chunks|] == chunks;
      return Ok(Done.Done);
    }

    /** #syncSession, for a session whose durable state was read before. */
    method SyncSession(reading: Reading, durable: Option<Session>) returns (r: Result<Done, FeedError>)
      requires ValidLimits(limits)
      modifies this, index
      ensures SessionSynced(old(State()), reading, durable, limits, State(), r)
    {
      hide PlanFor, CommitChunks, GreedyCut, Oversize;
      var plan := Inspect(reading, durable);
      if plan.Finish? {
        return plan.answer;
      }
      var cut := ChunkDocuments(plan.suffix, limits.size, limits.maxDocuments, limits.maxBytes);
      if cut.Err? {
        return Err(OversizedEvent);
      }
      r := CommitAll(cut.value);
    }

    /** #readSourceStates: the durable cursors of the listed sessions, and the daemon's watermark. */
    method ReadSourceStates(ids: seq<Text>) returns (r: Result<map<Text, Session>, FeedError>)
      modifies this
      ensures index.State() == old(index.State()) && committed == old(committed)
      ensures r.Err? <==> index.watermark < old(watermark)
      ensures r.Err? ==> r.error == WatermarkMovedBackwards && watermark == old(watermark)
      ensures r.Ok? ==> watermark == index.watermark
      ensures r.Ok? ==> forall s :: (s in r.value <==> s in ids && s in index.sessions) && (s in r.value ==> r.value[s] == index.sessions[s])
    {
      if index.watermark < watermark {
        return Err(WatermarkMovedBackwards);
      }
      watermark := index.watermark;
      return Ok(map s | s in ids && s in index.sessions :: index.sessions[s]);
    }

    /**
     #runCorpusSync over distinct sessions whose logs extend what is stored: when it returns, every
     listed log is stored whole, nothing was replayed and no other session was touched.
     */
    method SyncCorpus(ids: seq<Text>, readings: map<Text, Reading>, ghost logs: map<Text, seq<Document>>)
      returns (r: Result<Done, FeedError>)
      requires ValidLimits(limits)
      requires forall i, j :: 0 <= i < j < |ids| ==> ids[i] != ids[j]
      requires forall s <- ids :: s in readings && s in logs && Faithful(readings[s], logs[s])
      requires forall s <- ids :: Resumable(Restarted(index.State()), s, logs[s])
      requires Healthy(Restarted(index.State()))
      modifies this, index
      ensures Healthy(Restarted(index.State()))
      ensures r.Ok? ==> forall s <- ids :: StoredTo(index.State().tables, s, logs[s], |logs[s]|)
      ensures r.Err? ==> r.error in {WatermarkExhausted, OversizedEvent, WatermarkMovedBackwards}
      ensures r == Err(WatermarkMovedBackwards) <==> old(watermark) > old(index.watermark)
      ensures OutsideUntouched(old(index.State()).tables, index.State().tables, ids)
      ensures NoReplays(old(index.State()), index.State())
      ensures (forall s <- ids :: StoredTo(old(index.State()).tables, s, logs[s], |logs[s]|))
              ==> (r.Ok? || r.error == WatermarkMovedBackwards) && index.State() == old(index.State())
    {
      NothingOutside(index.State(), ids);
      var states := ReadSourceStates(ids);
      if states.Err? {
        return Err(states.error);
      }
      var durable := states.value;
      ghost var start := State();
      CorpusStarts(start, ids, logs, durable);
      for n := 0 to |ids|
        invariant SyncedTo(State(), ids, logs, durable, n)
        invariant OutsideUntouched(start.db.tables, State().db.tables, ids)
        invariant NoReplays(start.db, State().db)
        invariant (forall s <- ids :: StoredTo(start.db.tables, s, logs[s], |logs[s]|)) ==> State() == start
      {
        hide Healthy, StoredTo, ProjectedLog, OthersUntouched, OutsideUntouched, NoReplays, Faithful, SessionSynced, Lookup, Cursor, ValidLimits;
        var id := ids[n];
        ghost var before := State();
        PendingIsResumable(before, ids, logs, durable, n);
        var synced := SyncSession(readings[id], if id in durable then Some(durable[id]) else None);
        SyncResumes(before, id, logs[id], readings[id], limits, State(), synced);
        OneInside(start.db.tables, before.db.tables, State().db.tables, ids, id);
        NoReplaysChain(start.db, before.db, State().db);
        if synced.Err? {
          return Err(synced.error);
        }
        OneMoreSession(before, State(), ids, logs, durable, n);
      }
      return Ok(Done.Done);
    }
  }

  lemma {:induction false} CommitStops(f: Feed, chunks: seq<seq<Document>>, n: nat)
    requires n <= |chunks| && CommitChunks(f, chunks[..n]).error.Some?
    ensures CommitChunks(f, chunks) == CommitChunks(f, chunks[..n])
    decreases |chunks|
  {
    if n < |chunks| {
      var front := chunks[..|chunks| - 1];
      assert front[..n] == chunks[..n];
      CommitStops(f, front, n);
    } else {
      assert chunks[..n] == chunks;
    }
  }

  // ---------- What one synchronization achieves ----------

  /** What was read is the projection of the log. */
  ghost predicate Faithful(reading: Reading, log: seq<Document>) {
    && reading.projected == Some(log)
    && (reading.snapshot.Some? ==> reading.snapshot.value.eventCount == |log|
                                   && (log != [] ==> reading.snapshot.value.workspaceId == log[0].workspaceId))
  }

  /** The session holds a prefix of its log, and its cursor says which. */
  ghost predicate Resumable(f: Feed, s: Text, log: seq<Document>) {
    Healthy(f) && ProjectedLog(s, log) && Cursor(Lookup(f.db.tables, s)) <= |log|
    && StoredTo(f.db.tables, s, log, Cursor(Lookup(f.db.tables, s)))
  }

  /** An index that holds nothing can be fed any log from its beginning. */
  lemma NothingIsResumable(s: Text, log: seq<Document>)
    requires ProjectedLog(s, log)
    ensures Resumable(Feed(EMPTY, 0, 0), s, log)
  {
  }

  lemma StoredCursor(t: Tables, s: Text, log: seq<Document>, n: nat)
    requires n <= |log| && StoredTo(t, s, log, n)
    ensures Cursor(Lookup(t, s)) == n
  {
  }

  lemma SuffixPlan(f: Feed, s: Text, log: seq<Document>, reading: Reading)
    requires Resumable(f, s, log) && Faithful(reading, log)
    ensures var n := Cursor(Lookup(f.db.tables, s));
            PlanFor(reading, Lookup(f.db.tables, s)) == Send(log[n..])
            || (n == |log| && PlanFor(reading, Lookup(f.db.tables, s)) == Finish(Ok(Done.Done)))
  {
    hide Healthy, ProjectedLog;
  }

  /**
   The shortcut by the snapshot decides what projecting the whole log would have decided, for the
   cursors that the engine keeps: those of a session with at least one document.
   */
  lemma ShortcutAgrees(reading: Reading, log: seq<Document>, durable: Option<Session>)
    requires Faithful(reading, log) && (durable.Some? ==> durable.value.nextSeq >= 1)
    ensures var short, full := PlanFor(reading, durable), PlanFor(reading.(snapshot := None), durable);
            short == full || (short == Finish(Ok(Done.Done)) && full == Send([]))
  {
  }

  /** A log that does not reach the cursor, or lies in another workspace, is refused before anything is sent. */
  lemma PlanExactly(reading: Reading, log: seq<Document>, durable: Option<Session>)
    requires Faithful(reading, log) && (durable.Some? ==> durable.value.nextSeq >= 1)
    ensures PlanFor(reading, durable) == Finish(Err(SourceShorterThanCursor)) <==> durable.Some? && durable.value.nextSeq > |log|
    ensures PlanFor(reading, durable) == Finish(Err(WorkspaceMismatch)) <==>
              durable.Some? && durable.value.nextSeq <= |log| && durable.value.workspaceId != log[0].workspaceId
    ensures PlanFor(reading, durable).Send? ==> PlanFor(reading, durable).suffix == log[Cursor(durable)..]
  {
  }

  /**
   A log that cannot be projected sends nothing. Its synchronization succeeds exactly when the
   snapshot states the number of events stored and their workspace; where the snapshot cannot tell,
   the answer is that projecting failed.
   */
  lemma UnprojectableExactly(f: Feed, reading: Reading, durable: Option<Session>, limits: Limits, f': Feed, r: Result<Done, FeedError>)
    requires reading.projected.None? && SessionSynced(f, reading, durable, limits, f', r)
    ensures f' == f
    ensures r == Err(ProjectionFailed) <==>
              durable.None? || reading.snapshot.None? || durable.value.nextSeq < reading.snapshot.value.eventCount
    ensures r == Err(SourceShorterThanCursor) <==>
              durable.Some? && reading.snapshot.Some? && durable.value.nextSeq > reading.snapshot.value.eventCount
    ensures r.Ok? <==>
              durable.Some? && reading.snapshot.Some?
              && reading.snapshot.value == Snapshot(durable.value.nextSeq, durable.value.workspaceId)
    ensures r == Err(WorkspaceMismatch) <==>
              durable.Some? && reading.snapshot.Some? && durable.value.nextSeq == reading.snapshot.value.eventCount
              && durable.value.workspaceId != reading.snapshot.value.workspaceId
  {
  }

  lemma NothingLeft(suffix: seq<Document>, chunks: seq<seq<Document>>, limits: Limits)
    requires suffix == [] && GreedyCut(suffix, chunks, limits.size, limits.maxDocuments, limits.maxBytes)
    ensures chunks == []
  {
    NoChunks(chunks, limits.size, limits.maxDocuments, limits.maxBytes);
  }

  /**
   From any stored prefix a synchronization either stores the whole log, or stops at a longer
   prefix with a reason of its own (an event over the byte limit, before anything is sent, or
   no watermark left). The engine refuses nothing, replays nothing and touches no other
   session; with the cursor at the end already nothing at all is sent.
   */
  lemma SyncResumes(f: Feed, s: Text, log: seq<Document>, reading: Reading, limits: Limits, f': Feed, r: Result<Done, FeedError>)
    requires Resumable(f, s, log) && Faithful(reading, log) && ValidLimits(limits)
    requires SessionSynced(f, reading, Lookup(f.db.tables, s), limits, f', r)
    ensures Resumable(f', s, log)
    ensures Cursor(Lookup(f'.db.tables, s)) == Cursor(Lookup(f.db.tables, s)) + f'.committed - f.committed
    ensures OthersUntouched(f.db.tables, f'.db.tables, s) && NoReplays(f.db, f'.db)
    ensures r.Ok? ==> StoredTo(f'.db.tables, s, log, |log|)
    ensures Cursor(Lookup(f.db.tables, s)) == |log| ==> f' == f && r.Ok?
    ensures r.Err? ==> (r.error == OversizedEvent && f' == f && Oversize(log, limits.size, limits.maxBytes)) || r.error == WatermarkExhausted
    ensures r.Err? && r.error == WatermarkExhausted ==> f.watermark + |log| > MAX_SQLITE_INTEGER
  {
    var n := Cursor(Lookup(f.db.tables, s));
    hide Healthy, StoredTo, ProjectedLog, OthersUntouched, NoReplays, Faithful, PlanFor, Lookup, Cursor, SentInChunks;
    SuffixPlan(f, s, log, reading);
    UntouchedByNothing(f.db.tables, s);
    NoReplaysInNothing(f.db);
    if PlanFor(reading, Lookup(f.db.tables, s)) == Send(log[n..]) && !Oversize(log[n..], limits.size, limits.maxBytes) {
      SendResumes(f, s, log, limits, f', r);
    }
  }

  lemma SendResumes(f: Feed, s: Text, log: seq<Document>, limits: Limits, f': Feed, r: Result<Done, FeedError>)
    requires Resumable(f, s, log) && ValidLimits(limits)
    requires SentInChunks(f, log[Cursor(Lookup(f.db.tables, s))..], limits, f', r)
    ensures Resumable(f', s, log)
    ensures Cursor(Lookup(f'.db.tables, s)) == Cursor(Lookup(f.db.tables, s)) + f'.committed - f.committed
    ensures OthersUntouched(f.db.tables, f'.db.tables, s) && NoReplays(f.db, f'.db)
    ensures r.Ok? ==> StoredTo(f'.db.tables, s, log, |log|)
    ensures r.Err? ==> r.error == WatermarkExhausted && f.watermark + |log| > MAX_SQLITE_INTEGER
    ensures Cursor(Lookup(f.db.tables, s)) == |log| ==> f' == f && r.Ok?
  {
    hide Healthy, StoredTo, ProjectedLog, OthersUntouched, NoReplays, GreedyCut, CommitChunks, Lookup, Cursor, ValidLimits;
    var n := Cursor(Lookup(f.db.tables, s));
    var chunks :| && GreedyCut(log[n..], chunks, limits.size, limits.maxDocuments, limits.maxBytes)
                  && f' == CommitChunks(f, chunks).feed
                  && r == match CommitChunks(f, chunks).error case None => Ok(Done.Done) case Some(e) => Err(e);
    CutOfSuffix(log, n, chunks, limits);
    ChunksAreCommitted(f, s, log, n, chunks);
    StoredCursor(f'.db.tables, s, log, n + f'.committed - f.committed);
    if n == |log| {
      NothingLeft(log[n..], chunks, limits);
      NothingCommitted(f);
    }
  }

  lemma NothingCommitted(f: Feed)
    ensures CommitChunks(f, []) == Fed(f, None)
  {
  }

  lemma CutOfSuffix(log: seq<Document>, n: nat, chunks: seq<seq<Document>>, limits: Limits)
    requires n <= |log| && ValidLimits(limits)
    requires GreedyCut(log[n..], chunks, limits.size, limits.maxDocuments, limits.maxBytes)
    ensures Joined(chunks) == log[n..n + |Joined(chunks)|] && n + |Joined(chunks)| == |log|
    ensures forall i :: 0 <= i < |chunks| ==> |chunks[i]| <= MAX_BATCH_DOCUMENTS
    ensures NonEmpty(chunks) <= |log|
  {
    assert log[n..|log|] == log[n..];
    NoMoreChunksThanDocuments(chunks);
    forall i | 0 <= i < |chunks|
      ensures |chunks[i]| <= MAX_BATCH_DOCUMENTS
    {
      assert WithinLimits(chunks[i], limits.size, limits.maxDocuments, limits.maxBytes);
    }
  }

  lemma {:induction false} NoMoreChunksThanDocuments(chunks: seq<seq<Document>>)
    ensures NonEmpty(chunks) <= |Joined(chunks)|
    decreases |chunks|
  {
    if chunks != [] {
      NoMoreChunksThanDocuments(chunks[..|chunks| - 1]);
    }
  }

  // ---------- Crashes ----------

  /** The tables are fixed by what is stored of the session and what they were elsewhere. */
  lemma TablesAreDetermined(t: Tables, u: Tables, v: Tables, s: Text, log: seq<Document>)
    requires OthersUntouched(t, u, s) && OthersUntouched(t, v, s) && TablesInv(u) && TablesInv(v)
    requires StoredTo(u, s, log, |log|) && StoredTo(v, s, log, |log|)
    ensures u == v
  {
    hide TablesInv, OthersUntouched, StoredTo;
    SessionRowsAre(u, s, log);
    SessionRowsAre(v, s, log);
    SameSessions(t, u, v, s, log);
    SameDocuments(t, u, v, s);
  }

  lemma SameSessions(t: Tables, u: Tables, v: Tables, s: Text, log: seq<Document>)
    requires OthersUntouched(t, u, s) && OthersUntouched(t, v, s)
    requires StoredTo(u, s, log, |log|) && StoredTo(v, s, log, |log|)
    ensures u.sessions == v.sessions
  {
  }

  lemma SameDocuments(t: Tables, u: Tables, v: Tables, s: Text)
    requires OthersUntouched(t, u, s) && OthersUntouched(t, v, s)
    requires forall q: nat :: Coord(s, q) in u.documents <==> Coord(s, q) in v.documents
    requires forall q: nat :: Coord(s, q) in u.documents ==> u.documents[Coord(s, q)] == v.documents[Coord(s, q)]
    ensures u.documents == v.documents
  {
    forall at: Coord
      ensures at in u.documents <==> at in v.documents
      ensures at in u.documents ==> u.documents[at] == v.documents[at]
    {
      if at.sessionId == s {
        assert at == Coord(s, at.seqNo);
      }
    }
  }

  lemma SessionRowsAre(t: Tables, s: Text, log: seq<Document>)
    requires TablesInv(t) && StoredTo(t, s, log, |log|)
    ensures forall q: nat :: Coord(s, q) in t.documents <==> q < |log|
    ensures forall q: nat :: q < |log| ==> t.documents[Coord(s, q)] == RowOf(log[q])
  {
    if log != [] {
      assert SessionInv(t, s);
    }
  }

  /** What a client finds when it starts over a database that another one left behind. */
  function Restarted(db: Db): Feed {
    Feed(db, db.watermark, 0)
  }

  /** Cut the sending of a session after any number of chunks: a new client can resume from there. */
  lemma CrashIsResumable(f: Feed, s: Text, log: seq<Document>, chunks: seq<seq<Document>>, k: nat)
    requires Resumable(f, s, log) && k <= |chunks|
    requires Joined(chunks) == log[Cursor(Lookup(f.db.tables, s))..]
    requires forall i :: 0 <= i < |chunks| ==> |chunks[i]| <= MAX_BATCH_DOCUMENTS
    ensures var left := Restarted(CommitChunks(f, chunks[..k]).feed.db);
            Resumable(left, s, log) && OthersUntouched(f.db.tables, left.db.tables, s)
  {
    hide Healthy, StoredTo, ProjectedLog, OthersUntouched, NoReplays, CommitChunks, Lookup, Cursor;
    var n := Cursor(Lookup(f.db.tables, s));
    JoinedPrefix(chunks, k);
    assert Joined(chunks[..k]) == log[n..n + |Joined(chunks[..k])|];
    ChunksAreCommitted(f, s, log, n, chunks[..k]);
    var fed := CommitChunks(f, chunks[..k]);
    StoredCursor(fed.feed.db.tables, s, log, n + fed.feed.committed - f.committed);
    StartsHealthy(fed.feed);
  }

  lemma StartsHealthy(f: Feed)
    requires Healthy(f)
    ensures Healthy(Restarted(f.db))
  {
  }

  lemma {:induction false} JoinedPrefix<T>(chunks: seq<seq<T>>, k: nat)
    requires k <= |chunks|
    ensures |Joined(chunks[..k])| <= |Joined(chunks)| && Joined(chunks[..k]) == Joined(chunks)[..|Joined(chunks[..k])|]
    decreases |chunks|
  {
    if k < |chunks| {
      var front := chunks[..|chunks| - 1];
      assert front[..k] == chunks[..k];
      JoinedPrefix(front, k);
    } else {
      assert chunks[..k] == chunks;
    }
  }

  /**
   A feed that crashes after any number of chunks, and is resumed by a new client with limits
   of its own, ends with the same sessions and documents as a feed that never crashed.
   */
  lemma CrashThenResume(f: Feed, s: Text, log: seq<Document>, reading: Reading,
                        limits: Limits, f': Feed,
                        chunks: seq<seq<Document>>, k: nat, limits2: Limits, f2: Feed)
    requires Resumable(f, s, log) && Faithful(reading, log) && ValidLimits(limits) && ValidLimits(limits2)
    requires SessionSynced(f, reading, Lookup(f.db.tables, s), limits, f', Ok(Done.Done))
    requires Joined(chunks) == log[Cursor(Lookup(f.db.tables, s))..] && k <= |chunks|
    requires forall i :: 0 <= i < |chunks| ==> |chunks[i]| <= MAX_BATCH_DOCUMENTS
    requires var left := Restarted(CommitChunks(f, chunks[..k]).feed.db);
             SessionSynced(left, reading, Lookup(left.db.tables, s), limits2, f2, Ok(Done.Done))
    ensures f2.db.tables == f'.db.tables
  {
    var left := Restarted(CommitChunks(f, chunks[..k]).feed.db);
    hide StoredTo, ProjectedLog, OthersUntouched, NoReplays, Faithful, SessionSynced, CommitChunks, Lookup, Cursor, SingleWriter, TablesInv, BatchesInv;
    CrashIsResumable(f, s, log, chunks, k);
    SyncResumes(f, s, log, reading, limits, f', Ok(Done.Done));
    SyncResumes(left, s, log, reading, limits2, f2, Ok(Done.Done));
    OthersUntouchedChain(f.db.tables, left.db.tables, f2.db.tables, s);
    TablesAreDetermined(f.db.tables, f2.db.tables, f'.db.tables, s, log);
  }

  // ---------- A whole corpus ----------

  ghost predicate OutsideUntouched(t: Tables, t': Tables, ids: seq<Text>) {
    && (forall x :: x !in ids ==> Lookup(t, x) == Lookup(t', x))
    && (forall at: Coord :: at.sessionId !in ids ==> (at in t.documents <==> at in t'.documents))
    && (forall at <- t.documents :: at.sessionId !in ids ==> at in t'.documents && t'.documents[at] == t.documents[at])
  }

  lemma OneInside(t: Tables, u: Tables, v: Tables, ids: seq<Text>, s: Text)
    requires OutsideUntouched(t, u, ids) && OthersUntouched(u, v, s) && s in ids
    ensures OutsideUntouched(t, v, ids)
  {
  }

  lemma OtherSessionStays(t: Tables, t': Tables, s: Text, x: Text, log: seq<Document>, n: nat)
    requires OthersUntouched(t, t', s) && x != s && n <= |log| && StoredTo(t, x, log, n)
    ensures StoredTo(t', x, log, n) && Lookup(t', x) == Lookup(t, x)
  {
  }

  /** Sessions before n are complete; the rest are as resumable as their cursors in durable say. */
  ghost predicate SyncedTo(f: Feed, ids: seq<Text>, logs: map<Text, seq<Document>>, durable: map<Text, Session>, n: nat) {
    && Healthy(f)
    && (forall k :: 0 <= k < |ids| ==> ids[k] in logs)
    && (forall k :: 0 <= k < |ids| && k < n ==> StoredTo(f.db.tables, ids[k], logs[ids[k]], |logs[ids[k]]|))
    && (forall k :: 0 <= k < |ids| && n <= k ==> Pending(f, ids[k], logs[ids[k]], durable))
  }

  ghost predicate Pending(f: Feed, s: Text, log: seq<Document>, durable: map<Text, Session>) {
    Resumable(f, s, log) && Lookup(f.db.tables, s) == (if s in durable then Some(durable[s]) else None)
  }

  lemma CorpusStarts(f: Feed, ids: seq<Text>, logs: map<Text, seq<Document>>, durable: map<Text, Session>)
    requires f.watermark == f.db.watermark && forall s <- ids :: s in logs && Resumable(Restarted(f.db), s, logs[s])
    requires Healthy(Restarted(f.db))
    requires forall s :: (s in durable <==> s in ids && s in f.db.tables.sessions) && (s in durable ==> durable[s] == f.db.tables.sessions[s])
    ensures SyncedTo(f, ids, logs, durable, 0)
  {
  }

  lemma NothingOutside(db: Db, ids: seq<Text>)
    ensures OutsideUntouched(db.tables, db.tables, ids) && NoReplays(db, db)
  {
  }

  lemma PendingIsResumable(f: Feed, ids: seq<Text>, logs: map<Text, seq<Document>>, durable: map<Text, Session>, n: nat)
    requires SyncedTo(f, ids, logs, durable, n) && n < |ids|
    ensures ids[n] in logs && Resumable(f, ids[n], logs[ids[n]])
    ensures Lookup(f.db.tables, ids[n]) == (if ids[n] in durable then Some(durable[ids[n]]) else None)
  {
  }

  lemma OtherStaysPending(f: Feed, f': Feed, s: Text, x: Text, log: seq<Document>, durable: map<Text, Session>)
    requires OthersUntouched(f.db.tables, f'.db.tables, s) && x != s && Pending(f, x, log, durable) && Healthy(f')
    ensures Pending(f', x, log, durable)
  {
    hide Healthy, ProjectedLog, OthersUntouched, StoredTo, Lookup, Cursor;
    OtherSessionStays(f.db.tables, f'.db.tables, s, x, log, Cursor(Lookup(f.db.tables, x)));
  }

  /** Finishing the session ids[n] leaves the others where they were. */
  lemma OneMoreSession(f: Feed, f': Feed, ids: seq<Text>, logs: map<Text, seq<Document>>, durable: map<Text, Session>, n: nat)
    requires SyncedTo(f, ids, logs, durable, n) && n < |ids| && Healthy(f')
    requires forall i, j :: 0 <= i < j < |ids| ==> ids[i] != ids[j]
    requires OthersUntouched(f.db.tables, f'.db.tables, ids[n]) && StoredTo(f'.db.tables, ids[n], logs[ids[n]], |logs[ids[n]]|)
    ensures SyncedTo(f', ids, logs, durable, n + 1)
  {
    hide Healthy, ProjectedLog, OthersUntouched, StoredTo, Pending;
    forall k | 0 <= k < n
      ensures StoredTo(f'.db.tables, ids[k], logs[ids[k]], |logs[ids[k]]|)
    {
      OtherSessionStays(f.db.tables, f'.db.tables, ids[n], ids[k], logs[ids[k]], |logs[ids[k]]|);
    }
    forall k | n < k < |ids|
      ensures Pending(f', ids[k], logs[ids[k]], durable)
    {
      OtherStaysPending(f, f', ids[n], ids[k], logs[ids[k]], durable);
    }
  }
}
