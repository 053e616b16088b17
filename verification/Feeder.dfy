/**
 The client that feeds the ingest engine: it reads a durable cursor, takes the suffix of
 the projected log behind it, cuts that into bounded batches and commits them in order.
 */
module Feeder {
  import opened Wrappers
  import opened Texts
  import opened Ingest
  import opened IngestTheorems
  import opened Chunking

  const MAX_FEED_DOCUMENTS := 1_024

  datatype FeedError =
    | SourceShorterThanCursor
    | WorkspaceMismatch
    | ProjectionFailed
    | OversizedEvent
    | WatermarkExhausted
    | WatermarkMovedBackwards
    | Refused(error: IngestError)

  // ---------- Committing chunks ----------

  /** The daemon's tables beside the client's own watermark and its count of committed documents. */
  datatype Feed = Feed(db: Db, watermark: nat, committed: nat)

  datatype Fed = Fed(feed: Feed, error: Option<FeedError>)

  function BatchOf(watermark: nat, docs: seq<Document>): Batch
    requires docs != []
  {
    var payload := PayloadDigest(docs);
    Batch(BatchDigest(watermark, payload, Coordinate(docs[0]), Coordinate(docs[|docs| - 1])), payload, watermark, docs)
  }

  function CommitChunk(f: Feed, docs: seq<Document>): Fed {
    if docs == [] then Fed(f, None)
    else if f.watermark + 1 > MAX_SQLITE_INTEGER then Fed(f, Some(WatermarkExhausted))
    else
      var o := Apply(f.db, BatchOf(f.watermark + 1, docs));
      match o.answer
      case Err(e) => Fed(f.(db := o.db), Some(Refused(e)))
      case Ok(receipt) =>
        if receipt.watermark < f.watermark then Fed(f.(db := o.db), Some(WatermarkMovedBackwards))
        else Fed(Feed(o.db, receipt.watermark, f.committed + |docs|), None)
  }

  function CommitChunks(f: Feed, chunks: seq<seq<Document>>): Fed
    decreases |chunks|
  {
    if chunks == [] then Fed(f, None)
    else
      var before := CommitChunks(f, chunks[..|chunks| - 1]);
      if before.error.Some? then before else CommitChunk(before.feed, chunks[|chunks| - 1])
  }

  // ---------- The conditions of a resumable feed ----------

  /** A projected log: one session, one workspace, sequence numbers from zero, valid documents. */
  ghost predicate ProjectedLog(s: Text, log: seq<Document>) {
    && |log| <= MAX_SQLITE_INTEGER
    && forall k :: 0 <= k < |log| ==> ValidDocument(log[k]) && ProjectedAt(s, log, k)
  }

  ghost predicate ProjectedAt(s: Text, log: seq<Document>, k: nat)
    requires k < |log|
  {
    log[k].sessionId == s && log[k].seqNo == k && log[k].workspaceId == log[0].workspaceId
  }

  /** Exactly the first n events of the log are stored. */
  ghost predicate StoredTo(t: Tables, s: Text, log: seq<Document>, n: nat)
    requires n <= |log|
  {
    if n == 0 then s !in t.sessions
    else
      && s in t.sessions
      && t.sessions[s] == Session(log[0].workspaceId, n, log[n - 1].sourceRevision)
      && forall k :: 0 <= k < n ==> Coord(s, k) in t.documents && t.documents[Coord(s, k)] == RowOf(log[k])
  }

  /** Nothing of any other session moved. */
  ghost predicate OthersUntouched(t: Tables, t': Tables, s: Text) {
    && (forall x :: x != s ==> (x in t.sessions <==> x in t'.sessions))
    && (forall x <- t.sessions :: x != s ==> x in t'.sessions && t'.sessions[x] == t.sessions[x])
    && (forall at: Coord :: at.sessionId != s ==> (at in t.documents <==> at in t'.documents))
    && (forall at <- t.documents :: at.sessionId != s ==> at in t'.documents && t'.documents[at] == t.documents[at])
  }

  /** One writer only: a digest key on record was made for the watermark of its row. */
  ghost predicate SingleWriter(db: Db) {
    forall i :: 0 <= i < |db.batches| && db.batches[i].key.BatchDigest? ==> db.batches[i].key.watermark == db.batches[i].watermark
  }

  ghost predicate Healthy(f: Feed) {
    DbInv(f.db) && SingleWriter(f.db) && f.watermark == f.db.watermark
  }

  /** Every row added since db inserted all of its documents and replayed none. */
  ghost predicate NoReplays(db: Db, db': Db) {
    && db.batches <= db'.batches
    && forall i :: |db.batches| <= i < |db'.batches| ==> db'.batches[i].replayed == 0 && db'.batches[i].inserted > 0
  }

  // ---------- One document, one chunk ----------

  lemma OthersUntouchedChain(t: Tables, u: Tables, v: Tables, s: Text)
    requires OthersUntouched(t, u, s) && OthersUntouched(u, v, s)
    ensures OthersUntouched(t, v, s)
  {
  }

  lemma NextEventIsInserted(p: Progress, s: Text, log: seq<Document>, n: nat)
    requires TablesInv(p.tables) && ProjectedLog(s, log) && n < |log| && StoredTo(p.tables, s, log, n)
    ensures IngestOne(p, log[n]).Ok?
    ensures var q := IngestOne(p, log[n]).value;
            StoredTo(q.tables, s, log, n + 1) && OthersUntouched(p.tables, q.tables, s)
            && q.inserted == p.inserted + 1 && q.replayed == p.replayed
  {
    hide TablesInv, ValidDocument, StoredTo, OthersUntouched;
    assert ProjectedAt(s, log, n) && ProjectedAt(s, log, 0);
    StoredPrefixIsNext(p.tables, s, log, n);
    NextIsFree(p.tables, log[n]);
    var row := Session(log[n].workspaceId, n + 1, log[n].sourceRevision);
    NextIsInserted(p, log[n]);
    PrefixGrows(p.tables, s, log, n, row);
  }

  lemma StoredPrefixIsNext(t: Tables, s: Text, log: seq<Document>, n: nat)
    requires n < |log| && StoredTo(t, s, log, n) && ProjectedAt(s, log, n)
    ensures NextUp(t, log[n])
  {
  }

  lemma NextIsInserted(p: Progress, d: Document)
    requires NextUp(p.tables, d) && Coordinate(d) !in p.tables.documents && d.seqNo < MAX_SQLITE_INTEGER
    ensures IngestOne(p, d) == Ok(Progress(Insertion(p.tables, d, Session(d.workspaceId, d.seqNo + 1, d.sourceRevision)), p.inserted + 1, p.replayed))
  {
  }

  lemma PrefixGrows(t: Tables, s: Text, log: seq<Document>, n: nat, row: Session)
    requires n < |log| && StoredTo(t, s, log, n) && ProjectedAt(s, log, n)
    requires row == Session(log[0].workspaceId, n + 1, log[n].sourceRevision)
    ensures StoredTo(Insertion(t, log[n], row), s, log, n + 1) && OthersUntouched(t, Insertion(t, log[n], row), s)
  {
  }

  lemma IngestNothing(p: Progress, docs: seq<Document>)
    requires docs == []
    ensures IngestAll(p, docs) == Ok(p)
  {
  }

  lemma UntouchedByNothing(t: Tables, s: Text)
    ensures OthersUntouched(t, t, s)
  {
  }

  lemma {:induction false} EventsAreInserted(p: Progress, s: Text, log: seq<Document>, n: nat, m: nat)
    requires TablesInv(p.tables) && ProjectedLog(s, log) && n <= m <= |log| && StoredTo(p.tables, s, log, n)
    ensures IngestAll(p, log[n..m]).Ok?
    ensures var q := IngestAll(p, log[n..m]).value;
            StoredTo(q.tables, s, log, m) && OthersUntouched(p.tables, q.tables, s)
            && q.inserted == p.inserted + m - n && q.replayed == p.replayed
    decreases m - n
  {
    hide TablesInv, StoredTo, OthersUntouched, ProjectedLog, IngestOne, IngestAll;
    if n == m {
      IngestNothing(p, log[n..m]);
      UntouchedByNothing(p.tables, s);
    } else {
      EventsAreInserted(p, s, log, n, m - 1);
      var q := IngestAll(p, log[n..m - 1]).value;
      IngestAllKeeps(p, log[n..m - 1]);
      NextEventIsInserted(q, s, log, m - 1);
      assert log[n..m][..m - n - 1] == log[n..m - 1];
      IngestExtends(p, log[n..m], m - n - 1);
      assert log[n..m][..m - n] == log[n..m];
      OthersUntouchedChain(p.tables, q.tables, IngestOne(q, log[m - 1]).value.tables, s);
    }
  }

  lemma ChunkIsValid(s: Text, log: seq<Document>, n: nat, m: nat, watermark: nat)
    requires ProjectedLog(s, log) && n < m <= |log| && m - n <= MAX_BATCH_DOCUMENTS && watermark > 0
    ensures ValidBatch(BatchOf(watermark, log[n..m]))
  {
    hide ValidDocument;
    var docs := log[n..m];
    assert forall k :: 0 <= k < |docs| ==> docs[k] == log[n + k] && ProjectedAt(s, log, n + k) && ValidDocument(docs[k]);
    forall i, j | 0 <= i < j < |docs| && Neighbours(docs, i, j)
      ensures docs[j].seqNo == docs[i].seqNo + 1
    {
      assert docs[i + 1].sessionId == s;
    }
  }

  /** A single writer never meets its next key on record. */
  lemma NextKeyIsFresh(f: Feed, docs: seq<Document>)
    requires Healthy(f) && docs != []
    ensures FindBatch(f.db.batches, BatchOf(f.watermark + 1, docs).key) == None
  {
    hide TablesInv;
    var key := BatchOf(f.watermark + 1, docs).key;
    forall i | 0 <= i < |f.db.batches|
      ensures f.db.batches[i].key != key
    {
      assert f.db.batches[i].watermark <= f.db.watermark;
    }
  }

  lemma GenerationBelowWatermark(db: Db)
    requires BatchesInv(db)
    ensures db.generation <= db.watermark
  {
    RowsBelowWatermark(db, |db.batches|);
  }

  lemma {:induction false} RowsBelowWatermark(db: Db, n: nat)
    requires BatchesInv(db) && n <= |db.batches|
    ensures n > 0 ==> n <= db.batches[n - 1].watermark
    decreases n
  {
    if n > 1 {
      RowsBelowWatermark(db, n - 1);
    }
  }

  /** Sending the next events of a stored prefix: accepted, nothing replayed, nobody else touched. */
  lemma ChunkIsCommitted(f: Feed, s: Text, log: seq<Document>, n: nat, m: nat)
    requires Healthy(f) && ProjectedLog(s, log) && n < m <= |log| && m - n <= MAX_BATCH_DOCUMENTS
    requires StoredTo(f.db.tables, s, log, n) && f.watermark < MAX_SQLITE_INTEGER
    ensures var fed := CommitChunk(f, log[n..m]);
            fed.error == None && Healthy(fed.feed) && StoredTo(fed.feed.db.tables, s, log, m)
            && OthersUntouched(f.db.tables, fed.feed.db.tables, s) && NoReplays(f.db, fed.feed.db)
            && fed.feed.watermark == f.watermark + 1 && fed.feed.committed == f.committed + m - n
            && fed.feed.db.generation == f.db.generation + 1
  {
    hide DbInv, SingleWriter, ValidBatch, StoredTo, ProjectedLog, OthersUntouched, NoReplays, IngestAll, FindBatch, Apply, TablesInv, BatchesInv;
    var batch := BatchOf(f.watermark + 1, log[n..m]);
    HealthyParts(f);
    NextKeyIsFresh(f, log[n..m]);
    ChunkIsValid(s, log, n, m, f.watermark + 1);
    EventsAreInserted(Progress(f.db.tables, 0, 0), s, log, n, m);
    GenerationBelowWatermark(f.db);
    ApplyKeepsInv(f.db, batch);
    ApplyCommits(f.db, batch);
    RowAdded(f.db, batch, IngestAll(Progress(f.db.tables, 0, 0), log[n..m]).value);
  }

  lemma HealthyParts(f: Feed)
    requires Healthy(f)
    ensures TablesInv(f.db.tables) && BatchesInv(f.db) && f.watermark <= MAX_SQLITE_INTEGER
  {
  }

  lemma ApplyCommits(db: Db, batch: Batch)
    requires ValidBatch(batch) && FindBatch(db.batches, batch.key) == None && db.watermark < batch.watermark
    requires IngestAll(Progress(db.tables, 0, 0), batch.documents).Ok?
    ensures Apply(db, batch) == Commit(db, batch, IngestAll(Progress(db.tables, 0, 0), batch.documents).value)
  {
  }

  lemma RowAdded(db: Db, batch: Batch, p: Progress)
    requires SingleWriter(db) && (batch.key.BatchDigest? ==> batch.key.watermark == batch.watermark)
    requires p.inserted > 0 && p.replayed == 0
    ensures SingleWriter(Commit(db, batch, p).db) && NoReplays(db, Commit(db, batch, p).db)
  {
  }

  // ---------- A whole session ----------

  function NonEmpty(chunks: seq<seq<Document>>): nat
    decreases |chunks|
  {
    if chunks == [] then 0
    else NonEmpty(chunks[..|chunks| - 1]) + if chunks[|chunks| - 1] == [] then 0 else 1
  }

  lemma NoReplaysChain(a: Db, b: Db, c: Db)
    requires NoReplays(a, b) && NoReplays(b, c)
    ensures NoReplays(a, c)
  {
  }

  /**
   From a stored prefix, any chunks of what follows are committed until the watermarks run out:
   at every point the session is stored up to the last document committed.
   */
  lemma {:induction false} ChunksAreCommitted(f: Feed, s: Text, log: seq<Document>, n: nat, chunks: seq<seq<Document>>)
    requires Healthy(f) && ProjectedLog(s, log) && n + |Joined(chunks)| <= |log| && StoredTo(f.db.tables, s, log, n)
    requires Joined(chunks) == log[n..n + |Joined(chunks)|]
    requires forall i :: 0 <= i < |chunks| ==> |chunks[i]| <= MAX_BATCH_DOCUMENTS
    ensures var fed := CommitChunks(f, chunks);
            && fed.error == (if f.watermark + NonEmpty(chunks) <= MAX_SQLITE_INTEGER then None else Some(WatermarkExhausted))
            && Healthy(fed.feed) && OthersUntouched(f.db.tables, fed.feed.db.tables, s) && NoReplays(f.db, fed.feed.db)
            && f.committed <= fed.feed.committed <= f.committed + |Joined(chunks)|
            && fed.feed.watermark <= MAX_SQLITE_INTEGER
            && StoredTo(fed.feed.db.tables, s, log, n + fed.feed.committed - f.committed)
            && (fed.error == None ==>
                  && fed.feed.committed == f.committed + |Joined(chunks)|
                  && fed.feed.watermark == f.watermark + NonEmpty(chunks)
                  && fed.feed.db.generation == f.db.generation + NonEmpty(chunks))
    decreases |chunks|
  {
    hide Healthy, StoredTo, ProjectedLog, OthersUntouched, NoReplays, CommitChunk;
    if chunks == [] {
      HealthyParts(f);
      UntouchedByNothing(f.db.tables, s);
      NoReplaysInNothing(f.db);
    } else {
      var front, last := chunks[..|chunks| - 1], chunks[|chunks| - 1];
      var m := n + |Joined(front)|;
      LastChunk(log, n, chunks);
      ChunksAreCommitted(f, s, log, n, front);
      var fed := CommitChunks(f, front);
      if fed.error == None {
        OneMoreChunk(fed.feed, s, log, m, last);
        OthersUntouchedChain(f.db.tables, fed.feed.db.tables, CommitChunk(fed.feed, last).feed.db.tables, s);
        NoReplaysChain(f.db, fed.feed.db, CommitChunk(fed.feed, last).feed.db);
      }
    }
  }

  lemma LastChunk(log: seq<Document>, n: nat, chunks: seq<seq<Document>>)
    requires chunks != [] && n + |Joined(chunks)| <= |log| && Joined(chunks) == log[n..n + |Joined(chunks)|]
    ensures var front, last := chunks[..|chunks| - 1], chunks[|chunks| - 1];
            var m := n + |Joined(front)|;
            Joined(front) == log[n..m] && m + |last| == n + |Joined(chunks)| && last == log[m..m + |last|]
  {
    var front, last := chunks[..|chunks| - 1], chunks[|chunks| - 1];
    assert Joined(front) == Joined(chunks)[..|Joined(front)|];
    assert last == Joined(chunks)[|Joined(front)|..];
  }

  lemma NoReplaysInNothing(db: Db)
    ensures NoReplays(db, db)
  {
  }

  lemma OneMoreChunk(f: Feed, s: Text, log: seq<Document>, n: nat, chunk: seq<Document>)
    requires Healthy(f) && ProjectedLog(s, log) && n + |chunk| <= |log| && |chunk| <= MAX_BATCH_DOCUMENTS
    requires StoredTo(f.db.tables, s, log, n) && chunk == log[n..n + |chunk|]
    ensures var fed := CommitChunk(f, chunk);
            var sent := chunk != [] && f.watermark < MAX_SQLITE_INTEGER;
            && fed.error == (if chunk == [] || sent then None else Some(WatermarkExhausted))
            && Healthy(fed.feed) && OthersUntouched(f.db.tables, fed.feed.db.tables, s) && NoReplays(f.db, fed.feed.db)
            && fed.feed.committed == (if sent then f.committed + |chunk| else f.committed)
            && fed.feed.watermark == (if sent then f.watermark + 1 else f.watermark)
            && fed.feed.db.generation == (if sent then f.db.generation + 1 else f.db.generation)
            && StoredTo(fed.feed.db.tables, s, log, n + fed.feed.committed - f.committed)
  {
    hide Healthy, StoredTo, ProjectedLog, OthersUntouched, NoReplays;
    if chunk != [] && f.watermark < MAX_SQLITE_INTEGER {
      hide CommitChunk;
      ChunkIsCommitted(f, s, log, n, n + |chunk|);
    } else {
      UntouchedByNothing(f.db.tables, s);
      NoReplaysInNothing(f.db);
    }
  }
}
