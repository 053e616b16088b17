/**
 What the ingest engine keeps over every history of batches: gap-free session logs,
 receipts that can be asked for again at any later time, independence of how a log is
 cut into batches, and independence of sessions from one another.
 */
module IngestTheorems {
  import opened Wrappers
  import opened Texts
  import opened Ingest

  // ---------- The invariant of the tables ----------

  /** The documents of one session are exactly 0..nextSeq-1, in one workspace, the last one giving the header. */
  ghost predicate SessionInv(t: Tables, s: Text)
    requires s in t.sessions
  {
    var session := t.sessions[s];
    && 1 <= session.nextSeq <= MAX_SQLITE_INTEGER
    && (forall q: nat :: Coord(s, q) in t.documents <==> q < session.nextSeq)
    && (forall q: nat :: q < session.nextSeq ==> t.documents[Coord(s, q)].workspaceId == session.workspaceId)
    && t.documents[Coord(s, session.nextSeq - 1)].sourceRevision == session.headerRevision
  }

  ghost predicate TablesInv(t: Tables) {
    && (forall s <- t.sessions :: SessionInv(t, s))
    && (forall at <- t.documents :: at.sessionId in t.sessions)
  }

  function InsertedTotal(rows: seq<BatchRow>): nat
    decreases |rows|
  {
    if rows == [] then 0 else InsertedTotal(rows[..|rows| - 1]) + rows[|rows| - 1].inserted
  }

  /** One row per accepted batch, in commit order, with rising watermarks and distinct keys. */
  ghost predicate BatchesInv(db: Db) {
    && db.generation == |db.batches|
    && db.generation <= MAX_SQLITE_INTEGER
    && (forall i :: 0 <= i < |db.batches| ==> db.batches[i].generation == i + 1 && 0 < db.batches[i].watermark <= MAX_SQLITE_INTEGER)
    && (forall i, j :: 0 <= i < j < |db.batches| ==> db.batches[i].watermark < db.batches[j].watermark)
    && (forall i, j :: 0 <= i < j < |db.batches| ==> db.batches[i].key != db.batches[j].key)
    && db.watermark == (if db.batches == [] then 0 else db.batches[|db.batches| - 1].watermark)
  }

  ghost predicate DbInv(db: Db) {
    TablesInv(db.tables) && BatchesInv(db) && |db.tables.documents| == InsertedTotal(db.batches)
  }

  /** Nothing stored is ever changed or lost. */
  ghost predicate Extends(t: Tables, t': Tables) {
    && (forall at <- t.documents :: at in t'.documents && t'.documents[at] == t.documents[at])
    && (forall s <- t.sessions :: s in t'.sessions && t'.sessions[s].workspaceId == t.sessions[s].workspaceId
                                  && t.sessions[s].nextSeq <= t'.sessions[s].nextSeq)
  }

  // ---------- One document ----------

  /** d is the next document of its session. */
  predicate NextUp(t: Tables, d: Document) {
    if d.sessionId in t.sessions
    then t.sessions[d.sessionId].nextSeq == d.seqNo && t.sessions[d.sessionId].workspaceId == d.workspaceId
    else d.seqNo == 0
  }

  lemma InsertedSession(t: Tables, d: Document, row: Session, s: Text)
    requires TablesInv(t) && NextUp(t, d) && d.seqNo < MAX_SQLITE_INTEGER
    requires row == Session(d.workspaceId, d.seqNo + 1, d.sourceRevision)
    requires s in Insertion(t, d, row).sessions
    ensures SessionInv(Insertion(t, d, row), s)
  {
    var t' := Insertion(t, d, row);
    if s != d.sessionId {
      assert SessionInv(t, s);
      assert forall q: nat :: Coord(s, q) in t'.documents <==> Coord(s, q) in t.documents;
    } else if s in t.sessions {
      assert SessionInv(t, s);
      assert forall q: nat :: Coord(s, q) in t'.documents <==> Coord(s, q) in t.documents || q == d.seqNo;
    } else {
      assert forall q: nat :: Coord(s, q) !in t.documents;
      assert forall q: nat :: Coord(s, q) in t'.documents <==> q == d.seqNo;
    }
  }

  lemma OneMore(m: map<Coord, Stored>, at: Coord, row: Stored)
    requires at !in m
    ensures |m[at := row]| == |m| + 1
  {
    assert m[at := row].Keys == m.Keys + {at};
    assert |m[at := row].Keys| == |m[at := row]| && |m.Keys| == |m|;
  }

  lemma NextIsFree(t: Tables, d: Document)
    requires TablesInv(t) && NextUp(t, d)
    ensures Coordinate(d) !in t.documents
  {
    if d.sessionId in t.sessions {
      assert SessionInv(t, d.sessionId);
    }
  }

  lemma InsertionTables(t: Tables, d: Document, row: Session)
    requires TablesInv(t) && NextUp(t, d) && d.seqNo < MAX_SQLITE_INTEGER
    requires row == Session(d.workspaceId, d.seqNo + 1, d.sourceRevision)
    ensures TablesInv(Insertion(t, d, row))
  {
    forall s <- Insertion(t, d, row).sessions
      ensures SessionInv(Insertion(t, d, row), s)
    {
      InsertedSession(t, d, row, s);
    }
    hide SessionInv;
  }

  lemma InsertionExtends(t: Tables, d: Document, row: Session)
    requires Coordinate(d) !in t.documents && NextUp(t, d) && row.workspaceId == d.workspaceId && row.nextSeq == d.seqNo + 1
    ensures Extends(t, Insertion(t, d, row)) && StoredMatches(Insertion(t, d, row), d)
  {
  }

  lemma InsertionKeeps(t: Tables, d: Document, row: Session)
    requires TablesInv(t) && NextUp(t, d) && d.seqNo < MAX_SQLITE_INTEGER
    requires row == Session(d.workspaceId, d.seqNo + 1, d.sourceRevision)
    ensures Coordinate(d) !in t.documents
    ensures var t' := Insertion(t, d, row);
            TablesInv(t') && Extends(t, t') && StoredMatches(t', d) && |t'.documents| == |t.documents| + 1
  {
    hide TablesInv, Extends, StoredMatches;
    NextIsFree(t, d);
    InsertionTables(t, d, row);
    InsertionExtends(t, d, row);
    OneMore(t.documents, Coordinate(d), RowOf(d));
  }

  /** A document that is accepted is stored as sent, and nothing else moves. */
  lemma IngestOneKeeps(p: Progress, d: Document)
    requires TablesInv(p.tables)
    ensures IngestOne(p, d) != Err(ConstraintViolation)
    ensures IngestOne(p, d).Ok? ==>
              var p' := IngestOne(p, d).value;
              TablesInv(p'.tables) && Extends(p.tables, p'.tables) && StoredMatches(p'.tables, d)
              && p'.inserted + p'.replayed == p.inserted + p.replayed + 1
              && |p'.tables.documents| == |p.tables.documents| + p'.inserted - p.inserted
  {
    var t := p.tables;
    hide SessionInv;
    if NextUp(t, d) && d.seqNo < MAX_SQLITE_INTEGER {
      InsertionKeeps(t, d, Session(d.workspaceId, d.seqNo + 1, d.sourceRevision));
    } else if NextUp(t, d) {
      NextIsFree(t, d);
    }
  }

  lemma ExtendsTransitive(a: Tables, b: Tables, c: Tables)
    requires Extends(a, b) && Extends(b, c)
    ensures Extends(a, c)
  {
  }

  lemma MatchStays(t: Tables, t': Tables, d: Document)
    requires StoredMatches(t, d) && Extends(t, t')
    ensures StoredMatches(t', d)
  {
  }

  lemma {:induction false} IngestAllKeeps(p: Progress, docs: seq<Document>)
    requires TablesInv(p.tables)
    ensures IngestAll(p, docs) != Err(ConstraintViolation)
    ensures IngestAll(p, docs).Ok? ==>
              var p' := IngestAll(p, docs).value;
              TablesInv(p'.tables) && Extends(p.tables, p'.tables)
              && (forall d <- docs :: StoredMatches(p'.tables, d))
              && p'.inserted + p'.replayed == p.inserted + p.replayed + |docs|
              && |p'.tables.documents| == |p.tables.documents| + p'.inserted - p.inserted
    decreases |docs|
  {
    if docs != [] {
      var front, d := docs[..|docs| - 1], docs[|docs| - 1];
      IngestAllKeeps(p, front);
      if IngestAll(p, front).Ok? {
        var p1 := IngestAll(p, front).value;
        hide TablesInv, Extends, StoredMatches, IngestOne;
        IngestOneKeeps(p1, d);
        if IngestOne(p1, d).Ok? {
          var p2 := IngestOne(p1, d).value;
          ExtendsTransitive(p.tables, p1.tables, p2.tables);
          forall e | e in docs
            ensures StoredMatches(p2.tables, e)
          {
            if e in front {
              MatchStays(p1.tables, p2.tables, e);
            }
          }
        }
      }
    }
  }

  // ---------- Exactly what is refused ----------

  /** The documents stored of a session, counted in the table and not read from its header. */
  function StoredOf(t: Tables, s: Text): set<Coord> {
    set at <- t.documents | at.sessionId == s
  }

  lemma {:induction false} CountedUpTo(s: Text, n: nat, coords: set<Coord>)
    requires forall at: Coord :: at in coords <==> at.sessionId == s && at.seqNo < n
    ensures |coords| == n
    decreases n
  {
    if n == 0 {
      assert coords == {};
    } else {
      var last := Coord(s, n - 1);
      CountedUpTo(s, n - 1, coords - {last});
    }
  }

  lemma StoredOfIsNext(t: Tables, s: Text)
    requires TablesInv(t)
    ensures |StoredOf(t, s)| == if s in t.sessions then t.sessions[s].nextSeq else 0
  {
    if s in t.sessions {
      assert SessionInv(t, s);
      forall at: Coord
        ensures at in StoredOf(t, s) <==> at.sessionId == s && at.seqNo < t.sessions[s].nextSeq
      {
        assert at == Coord(at.sessionId, at.seqNo);
      }
      CountedUpTo(s, t.sessions[s].nextSeq, StoredOf(t, s));
    } else {
      assert StoredOf(t, s) == {};
    }
  }

  /**
   What is decided about a document, by what is stored of its session: another workspace is refused
   first (naming the stored one as expected), then a gap (naming the number of stored documents as the expected one), then a different
   document at a stored place. The same document there is a replay, and the next one is inserted.
   */
  lemma VerdictExactly(t: Tables, d: Document)
    requires TablesInv(t)
    ensures var n := |StoredOf(t, d.sessionId)|;
            var foreign := exists at <- t.documents :: at.sessionId == d.sessionId && t.documents[at].workspaceId != d.workspaceId;
            && (VerdictOn(t, d).Refuse? && VerdictOn(t, d).error.WorkspaceConflict? <==> foreign)
            && (foreign ==> forall at <- t.documents :: at.sessionId == d.sessionId ==>
                              VerdictOn(t, d) == Refuse(WorkspaceConflict(d.sessionId, t.documents[at].workspaceId, d.workspaceId)))
            && (VerdictOn(t, d) == Refuse(SequenceGap(d.sessionId, n, d.seqNo)) <==> !foreign && d.seqNo > n)
            && (VerdictOn(t, d) == Refuse(DocumentConflict(d.sessionId, d.seqNo)) <==> !foreign && d.seqNo < n && !StoredMatches(t, d))
            && (VerdictOn(t, d) == Replay <==> !foreign && d.seqNo < n && StoredMatches(t, d))
            && (VerdictOn(t, d) == Refuse(InvalidMutation) <==> !foreign && d.seqNo == n >= MAX_SQLITE_INTEGER)
            && (VerdictOn(t, d).Insert? <==> !foreign && d.seqNo == n < MAX_SQLITE_INTEGER)
  {
    StoredOfIsNext(t, d.sessionId);
    ForeignExactly(t, d);
    if NextUp(t, d) {
      NextIsFree(t, d);
    }
    hide TablesInv, StoredOf, StoredMatches;
  }

  /** A session lies in another workspace exactly when a stored document of it does. */
  lemma ForeignExactly(t: Tables, d: Document)
    requires TablesInv(t)
    ensures (exists at <- t.documents :: at.sessionId == d.sessionId && t.documents[at].workspaceId != d.workspaceId)
            <==> d.sessionId in t.sessions && t.sessions[d.sessionId].workspaceId != d.workspaceId
    ensures forall at <- t.documents :: at.sessionId == d.sessionId ==>
              d.sessionId in t.sessions && t.documents[at].workspaceId == t.sessions[d.sessionId].workspaceId
  {
    var s := d.sessionId;
    if s in t.sessions {
      assert SessionInv(t, s);
      assert Coord(s, 0) in t.documents && t.documents[Coord(s, 0)].workspaceId == t.sessions[s].workspaceId;
      forall at <- t.documents | at.sessionId == s
        ensures t.documents[at].workspaceId == t.sessions[s].workspaceId
      {
        assert at == Coord(s, at.seqNo);
      }
    }
  }

  // ---------- One batch ----------

  predicate Fresh(o: Outcome) {
    o.answer.Ok? && !o.answer.value.batchReplayed
  }

  /** An accepted new batch: its documents stored, one row added, everything else kept. */
  lemma FreshApply(db: Db, batch: Batch)
    requires Fresh(Apply(db, batch))
    ensures ValidBatch(batch) && FindBatch(db.batches, batch.key) == None && db.watermark < batch.watermark
    ensures IngestAll(Progress(db.tables, 0, 0), batch.documents).Ok?
    ensures Apply(db, batch) == Commit(db, batch, IngestAll(Progress(db.tables, 0, 0), batch.documents).value)
    ensures db.generation + 1 <= MAX_SQLITE_INTEGER && batch.watermark <= MAX_SQLITE_INTEGER
  {
  }

  lemma CommitKeepsBatches(db: Db, batch: Batch, p: Progress)
    requires BatchesInv(db) && FindBatch(db.batches, batch.key) == None && db.watermark < batch.watermark
    ensures BatchesInv(Commit(db, batch, p).db)
  {
  }

  lemma ApplyKeepsInv(db: Db, batch: Batch)
    requires DbInv(db)
    ensures DbInv(Apply(db, batch).db)
    ensures Apply(db, batch).answer != Err(ConstraintViolation)
    ensures Extends(db.tables, Apply(db, batch).db.tables) && db.batches <= Apply(db, batch).db.batches
    ensures db.watermark <= Apply(db, batch).db.watermark
  {
    hide TablesInv, BatchesInv, ValidBatch, IngestAll, ExactReplay;
    IngestAllKeeps(Progress(db.tables, 0, 0), batch.documents);
    if Fresh(Apply(db, batch)) {
      FreshApply(db, batch);
      var p := IngestAll(Progress(db.tables, 0, 0), batch.documents).value;
      CommitKeepsBatches(db, batch, p);
      var db' := Apply(db, batch).db;
      assert db'.batches[..|db.batches|] == db.batches;
    }
  }

  lemma {:induction false} HistoryKeepsInv(db: Db, history: seq<Batch>)
    requires DbInv(db)
    ensures DbInv(ApplyAll(db, history))
    ensures Extends(db.tables, ApplyAll(db, history).tables) && db.batches <= ApplyAll(db, history).batches
    decreases |history|
  {
    hide DbInv;
    if history != [] {
      var front := history[..|history| - 1];
      HistoryKeepsInv(db, front);
      ApplyKeepsInv(ApplyAll(db, front), history[|history| - 1]);
      ExtendsTransitive(db.tables, ApplyAll(db, front).tables, ApplyAll(db, history).tables);
    }
  }

  /** Every index reachable from a fresh one by any calls at all is well formed. */
  lemma ReachableInv(history: seq<Batch>)
    ensures DbInv(ApplyAll(EMPTY, history))
  {
    HistoryKeepsInv(EMPTY, history);
  }

  // ---------- Receipts ----------

  /** Whatever is refused, and whatever is replayed, changes nothing. */
  lemma OnlyFreshBatchesChange(db: Db, batch: Batch)
    ensures !Fresh(Apply(db, batch)) ==> Apply(db, batch).db == db
    ensures Fresh(Apply(db, batch)) ==> Apply(db, batch).db.generation == db.generation + 1 && Apply(db, batch).db.watermark > db.watermark
  {
  }

  /** The batch is on record: its row, and each of its documents as sent. */
  predicate OnRecord(db: Db, batch: Batch, receipt: Receipt) {
    ValidBatch(batch)
    && match FindBatch(db.batches, batch.key)
       case None => false
       case Some(row) =>
         && ExactReplay(db, batch, row)
         && receipt.generation == row.generation && receipt.watermark == batch.watermark
         && receipt.inserted == row.inserted && receipt.replayed == row.replayed
  }

  lemma {:induction false} FindInPrefix(rows: seq<BatchRow>, more: seq<BatchRow>, key: Key)
    ensures FindBatch(rows, key).Some? ==> FindBatch(rows + more, key) == FindBatch(rows, key)
    ensures FindBatch(rows, key).None? ==> FindBatch(rows + more, key) == FindBatch(more, key)
    decreases |rows|
  {
    if rows == [] {
      assert rows + more == more;
    } else {
      FindInPrefix(rows[1..], more, key);
      assert (rows + more)[1..] == rows[1..] + more;
    }
  }

  lemma AcceptedIsOnRecord(db: Db, batch: Batch)
    requires DbInv(db) && Apply(db, batch).answer.Ok?
    ensures OnRecord(Apply(db, batch).db, batch, Apply(db, batch).answer.value)
  {
    hide TablesInv, BatchesInv;
    if Fresh(Apply(db, batch)) {
      FreshApply(db, batch);
      IngestAllKeeps(Progress(db.tables, 0, 0), batch.documents);
      var p := IngestAll(Progress(db.tables, 0, 0), batch.documents).value;
      var row := BatchRow(batch.key, batch.payload, batch.watermark, db.generation + 1, p.inserted, p.replayed);
      FindInPrefix(db.batches, [row], batch.key);
    }
  }

  lemma RecordSurvives(db: Db, db': Db, batch: Batch, receipt: Receipt)
    requires OnRecord(db, batch, receipt) && Extends(db.tables, db'.tables) && db.batches <= db'.batches
    ensures OnRecord(db', batch, receipt)
  {
    assert db'.batches == db.batches + db'.batches[|db.batches|..];
    FindInPrefix(db.batches, db'.batches[|db.batches|..], batch.key);
  }

  /**
   Sending an accepted batch again, after any further calls, returns its original receipt
   and changes nothing.
   */
  lemma ReplayAtAnyLaterTime(db: Db, batch: Batch, history: seq<Batch>)
    requires DbInv(db) && Apply(db, batch).answer.Ok?
    ensures var later := ApplyAll(Apply(db, batch).db, history);
            Apply(later, batch) == Outcome(later, Ok(Apply(db, batch).answer.value.(batchReplayed := true)))
  {
    hide DbInv, Apply;
    ApplyKeepsInv(db, batch);
    AcceptedIsOnRecord(db, batch);
    HistoryKeepsInv(Apply(db, batch).db, history);
    RecordSurvives(Apply(db, batch).db, ApplyAll(Apply(db, batch).db, history), batch, Apply(db, batch).answer.value);
    RecordReplays(ApplyAll(Apply(db, batch).db, history), batch, Apply(db, batch).answer.value);
  }

  lemma RecordReplays(db: Db, batch: Batch, receipt: Receipt)
    requires OnRecord(db, batch, receipt)
    ensures Apply(db, batch) == Outcome(db, Ok(receipt.(batchReplayed := true)))
  {
  }

  // ---------- What is stored, field by field ----------

  /** A stored row and a document agree in every field, the scope tokens as a set. */
  ghost predicate Agrees(row: Stored, d: Document) {
    && row.eventTime == d.eventTime && row.eventType == d.eventType && row.surface == d.surface
    && row.workspaceId == d.workspaceId && row.body == d.body
    && row.fingerprint == d.fingerprint && row.sourceRevision == d.sourceRevision
    && forall token :: token in row.scopeTerms <==> token in d.scopeTokens
  }

  lemma MatchesExactly(t: Tables, d: Document)
    ensures StoredMatches(t, d) <==>
              Coord(d.sessionId, d.seqNo) in t.documents && Agrees(t.documents[Coord(d.sessionId, d.seqNo)], d)
  {
    if Coordinate(d) in t.documents && Agrees(t.documents[Coordinate(d)], d) {
      assert t.documents[Coordinate(d)].scopeTerms == RowOf(d).scopeTerms;
    }
  }

  /** Two documents that match one stored row agree in all their fields and in their sets of tokens. */
  lemma OneRowOneDocument(t: Tables, d: Document, e: Document)
    requires StoredMatches(t, d) && StoredMatches(t, e) && d.sessionId == e.sessionId && d.seqNo == e.seqNo
    ensures d == e.(scopeTokens := d.scopeTokens)
    ensures forall token :: token in d.scopeTokens <==> token in e.scopeTokens
  {
    MatchesExactly(t, d);
    MatchesExactly(t, e);
    hide StoredMatches;
    var row := t.documents[Coord(d.sessionId, d.seqNo)];
    assert forall token :: token in d.scopeTokens <==> token in row.scopeTerms;
  }

  /** Every row of the tables was there before or is a document of the list. */
  lemma {:induction false} NothingInvented(p: Progress, docs: seq<Document>, at: Coord)
    requires IngestAll(p, docs).Ok? && at in IngestAll(p, docs).value.tables.documents && at !in p.tables.documents
    ensures exists d <- docs :: at == Coord(d.sessionId, d.seqNo)
    decreases |docs|
  {
    if docs != [] {
      var front, d := docs[..|docs| - 1], docs[|docs| - 1];
      if at in IngestAll(p, front).value.tables.documents {
        NothingInvented(p, front, at);
      } else {
        assert at == Coordinate(d);
        assert d in docs;
      }
    }
  }

  /**
   After an accepted call each of its documents is found at its place with its own time, type,
   surface, workspace, body, fingerprint, revision and set of tokens; a new call adds nothing else.
   */
  lemma AcceptedIsStored(db: Db, batch: Batch, d: Document)
    requires DbInv(db) && Apply(db, batch).answer.Ok? && d in batch.documents
    ensures var documents := Apply(db, batch).db.tables.documents;
            Coord(d.sessionId, d.seqNo) in documents && Agrees(documents[Coord(d.sessionId, d.seqNo)], d)
    ensures forall at :: at in Apply(db, batch).db.tables.documents && at !in db.tables.documents ==>
              exists e <- batch.documents :: at == Coord(e.sessionId, e.seqNo)
  {
    AcceptedIsOnRecord(db, batch);
    hide DbInv, StoredMatches, Agrees, ValidBatch, IngestAll;
    MatchesExactly(Apply(db, batch).db.tables, d);
    forall at | at in Apply(db, batch).db.tables.documents && at !in db.tables.documents
      ensures exists e <- batch.documents :: at == Coord(e.sessionId, e.seqNo)
    {
      NothingInvented(Progress(db.tables, 0, 0), batch.documents, at);
    }
  }

  /**
   A document is taken for a replay exactly when the row stored at its place agrees with it in every
   field, and for a conflict exactly when the row there differs in one of them.
   */
  lemma ReplayExactly(t: Tables, d: Document)
    requires TablesInv(t) && !(VerdictOn(t, d).Refuse? && VerdictOn(t, d).error.WorkspaceConflict?)
    ensures VerdictOn(t, d) == Replay <==>
              Coord(d.sessionId, d.seqNo) in t.documents && Agrees(t.documents[Coord(d.sessionId, d.seqNo)], d)
    ensures VerdictOn(t, d) == Refuse(DocumentConflict(d.sessionId, d.seqNo)) <==>
              Coord(d.sessionId, d.seqNo) in t.documents && !Agrees(t.documents[Coord(d.sessionId, d.seqNo)], d)
  {
    MatchesExactly(t, d);
    if d.sessionId in t.sessions {
      assert SessionInv(t, d.sessionId);
    }
    hide StoredMatches, Agrees;
  }

  /**
   Under the key of an accepted batch, at any later time: another batch is answered with the original
   receipt exactly when it has the same payload, watermark and number of documents and each of its
   documents agrees with the stored one; otherwise it is a conflict, and nothing changes either way.
   */
  lemma KeyIsTakenExactly(db: Db, batch: Batch, history: seq<Batch>, again: Batch)
    requires DbInv(db) && Apply(db, batch).answer.Ok? && ValidBatch(again) && again.key == batch.key
    ensures var later := ApplyAll(Apply(db, batch).db, history);
            Apply(later, again) == Outcome(later, if SameBatch(later.tables, again, batch)
                                                  then Ok(Apply(db, batch).answer.value.(batchReplayed := true))
                                                  else Err(IdempotencyConflict(batch.key)))
  {
    var later, receipt := ApplyAll(Apply(db, batch).db, history), Apply(db, batch).answer.value;
    hide DbInv, Apply;
    ApplyKeepsInv(db, batch);
    AcceptedIsOnRecord(db, batch);
    HistoryKeepsInv(Apply(db, batch).db, history);
    RecordSurvives(Apply(db, batch).db, later, batch, receipt);
    TakenExactly(later, batch, receipt, again);
  }

  /** The batch sent again is the one on record, each document agreeing with what is stored. */
  ghost predicate SameBatch(t: Tables, again: Batch, batch: Batch) {
    && again.payload == batch.payload && again.watermark == batch.watermark && |again.documents| == |batch.documents|
    && forall d <- again.documents ::
         Coord(d.sessionId, d.seqNo) in t.documents && Agrees(t.documents[Coord(d.sessionId, d.seqNo)], d)
  }

  lemma TakenExactly(db: Db, batch: Batch, receipt: Receipt, again: Batch)
    requires OnRecord(db, batch, receipt) && ValidBatch(again) && again.key == batch.key
    ensures Apply(db, again) == Outcome(db, if SameBatch(db.tables, again, batch)
                                            then Ok(receipt.(batchReplayed := true)) else Err(IdempotencyConflict(batch.key)))
  {
    forall d | d in again.documents
      ensures StoredMatches(db.tables, d) <==>
                Coord(d.sessionId, d.seqNo) in db.tables.documents && Agrees(db.tables.documents[Coord(d.sessionId, d.seqNo)], d)
    {
      MatchesExactly(db.tables, d);
    }
    hide StoredMatches, Agrees, ValidBatch;
  }

  // ---------- Everything stored is within its limits ----------

  predicate Within(text: Text, minimum: nat, maximum: nat) {
    minimum <= |text| <= maximum && 0 !in text
  }

  /** The limits of one stored row, and of the place where it is stored. */
  ghost predicate RowWithin(at: Coord, row: Stored) {
    && Within(at.sessionId, 1, 128) && at.seqNo <= MAX_SQLITE_INTEGER
    && Within(row.eventType, 1, 96) && Within(row.surface, 1, 64) && Within(row.workspaceId, 1, 4_096)
    && Within(row.body, 0, 1_048_576) && Within(row.fingerprint, 1, 256) && Within(row.sourceRevision, 1, 256)
    && 1 <= |row.scopeTerms| <= 16
    && forall token: Text <- row.scopeTerms :: 1 <= |token| <= 64 && forall b: Byte <- token :: 97 <= b <= 122 || 48 <= b <= 57
  }

  ghost predicate AllWithin(t: Tables) {
    forall at <- t.documents :: RowWithin(at, t.documents[at])
  }

  lemma {:induction false} NoMoreThanListed(tokens: seq<Text>)
    ensures |(set token <- tokens)| <= |tokens|
    decreases |tokens|
  {
    if tokens != [] {
      var front := tokens[..|tokens| - 1];
      NoMoreThanListed(front);
      assert tokens == front + [tokens[|tokens| - 1]];
      assert (set token <- tokens) == (set token <- front) + {tokens[|tokens| - 1]};
    }
  }

  lemma ValidIsWithin(d: Document)
    requires ValidDocument(d)
    ensures RowWithin(Coordinate(d), RowOf(d))
  {
    NoMoreThanListed(d.scopeTokens);
    assert d.scopeTokens[0] in RowOf(d).scopeTerms;
  }

  lemma {:induction false} IngestStaysWithin(p: Progress, docs: seq<Document>)
    requires AllWithin(p.tables) && IngestAll(p, docs).Ok? && forall d <- docs :: ValidDocument(d)
    ensures AllWithin(IngestAll(p, docs).value.tables)
    decreases |docs|
  {
    hide RowWithin, ValidDocument;
    if docs != [] {
      var front, d := docs[..|docs| - 1], docs[|docs| - 1];
      assert d in docs && forall e <- front :: e in docs;
      IngestStaysWithin(p, front);
      ValidIsWithin(d);
    }
  }

  /** After any history every stored row is within the limits of its fields, with one to sixteen tokens. */
  lemma {:induction false} StoredRowsAreWithinLimits(history: seq<Batch>)
    ensures AllWithin(ApplyAll(EMPTY, history).tables)
    decreases |history|
  {
    hide RowWithin, ValidDocument, IngestAll, ExactReplay;
    if history != [] {
      var db, batch := ApplyAll(EMPTY, history[..|history| - 1]), history[|history| - 1];
      StoredRowsAreWithinLimits(history[..|history| - 1]);
      if Fresh(Apply(db, batch)) {
        FreshApply(db, batch);
        IngestStaysWithin(Progress(db.tables, 0, 0), batch.documents);
      }
    }
  }

  /** What the row of an accepted batch says: a key and payload within their limits, and one to ten thousand documents. */
  predicate BatchWithin(row: BatchRow) {
    && (row.key.RawKey? ==> Within(row.key.text, 1, 256))
    && (row.payload.RawFingerprint? ==> Within(row.payload.text, 1, 256))
    && 0 < row.watermark <= MAX_SQLITE_INTEGER && 1 <= row.inserted + row.replayed <= 10_000
  }

  /** After any history every row of the batch log is within its limits. */
  lemma {:induction false} BatchesAreWithinLimits(history: seq<Batch>)
    ensures forall row <- ApplyAll(EMPTY, history).batches :: BatchWithin(row)
    decreases |history|
  {
    hide BatchWithin, Apply;
    if history != [] {
      var db, batch := ApplyAll(EMPTY, history[..|history| - 1]), history[|history| - 1];
      BatchesAreWithinLimits(history[..|history| - 1]);
      ReachableInv(history[..|history| - 1]);
      NewRowsAreWithin(db, batch);
    }
  }

  lemma NewRowsAreWithin(db: Db, batch: Batch)
    requires DbInv(db) && forall row <- db.batches :: BatchWithin(row)
    ensures forall row <- Apply(db, batch).db.batches :: BatchWithin(row)
  {
    hide BatchWithin, ValidBatch, IngestAll, TablesInv, BatchesInv;
    OnlyFreshBatchesChange(db, batch);
    if Fresh(Apply(db, batch)) {
      FreshApply(db, batch);
      IngestAllKeeps(Progress(db.tables, 0, 0), batch.documents);
      NewRowIsWithin(db, batch);
    } else {
      hide Apply;
    }
  }

  lemma NewRowIsWithin(db: Db, batch: Batch)
    requires ValidBatch(batch) && batch.watermark <= MAX_SQLITE_INTEGER
    requires IngestAll(Progress(db.tables, 0, 0), batch.documents).Ok?
    requires var p := IngestAll(Progress(db.tables, 0, 0), batch.documents).value; p.inserted + p.replayed == |batch.documents|
    ensures var p := IngestAll(Progress(db.tables, 0, 0), batch.documents).value;
            BatchWithin(BatchRow(batch.key, batch.payload, batch.watermark, db.generation + 1, p.inserted, p.replayed))
  {
  }

  /**
   A valid batch under a new key is too late exactly when some accepted batch has its watermark or a
   later one; the answer names the latest accepted watermark and its own.
   */
  lemma LateExactly(db: Db, batch: Batch)
    requires DbInv(db) && ValidBatch(batch) && FindBatch(db.batches, batch.key).None?
    ensures var answer := Apply(db, batch).answer;
            && (answer.Err? && answer.error.NonMonotonicWatermark? <==> exists row <- db.batches :: row.watermark >= batch.watermark)
            && (answer.Err? && answer.error.NonMonotonicWatermark? ==>
                  && answer.error.next == batch.watermark
                  && (exists row <- db.batches :: row.watermark == answer.error.current)
                  && forall row <- db.batches :: row.watermark <= answer.error.current)
  {
    assert batch.watermark > 0;
    hide ValidBatch, TablesInv, IngestAll, FindBatch;
    NeverLate(Progress(db.tables, 0, 0), batch.documents);
    if db.batches != [] {
      var last := db.batches[|db.batches| - 1];
      assert last in db.batches && last.watermark == db.watermark;
      forall row | row in db.batches
        ensures row.watermark <= db.watermark
      {
        var i :| 0 <= i < |db.batches| && db.batches[i] == row;
      }
    }
  }

  /** No document is refused for its batch's watermark. */
  lemma {:induction false} NeverLate(p: Progress, docs: seq<Document>)
    ensures IngestAll(p, docs).Err? ==> !IngestAll(p, docs).error.NonMonotonicWatermark?
    decreases |docs|
  {
    if docs != [] {
      NeverLate(p, docs[..|docs| - 1]);
    }
  }

  // ---------- Batch boundaries ----------

  lemma {:induction false} IngestConcat(p: Progress, a: seq<Document>, b: seq<Document>)
    ensures IngestAll(p, a + b) == (match IngestAll(p, a)
                                    case Ok(p') => IngestAll(p', b)
                                    case Err(e) => Err(e))
    decreases |b|
  {
    if b == [] {
      assert a + b == a;
    } else {
      var front := b[..|b| - 1];
      assert (a + b)[..|a + b| - 1] == a + front;
      IngestConcat(p, a, front);
    }
  }

  /** The counters only count: they never influence what is stored. */
  lemma {:induction false} CountersOnlyCount(p: Progress, docs: seq<Document>)
    ensures match IngestAll(Progress(p.tables, 0, 0), docs)
            case Err(e) => IngestAll(p, docs) == Err(e)
            case Ok(q) => IngestAll(p, docs) == Ok(Progress(q.tables, p.inserted + q.inserted, p.replayed + q.replayed))
    decreases |docs|
  {
    hide VerdictOn;
    if docs != [] {
      CountersOnlyCount(p, docs[..|docs| - 1]);
    }
  }

  function Documents(parts: seq<Batch>): seq<Document>
    decreases |parts|
  {
    if parts == [] then [] else Documents(parts[..|parts| - 1]) + parts[|parts| - 1].documents
  }

  /** Consecutive non-empty batches with fresh distinct keys and rising watermarks. */
  ghost predicate FreshParts(db: Db, parts: seq<Batch>) {
    && (forall part <- parts :: ValidKey(part.key) && ValidFingerprint(part.payload) && part.documents != []
                                && db.watermark < part.watermark <= MAX_SQLITE_INTEGER)
    && (forall i, j :: 0 <= i < j < |parts| ==> parts[i].watermark < parts[j].watermark && parts[i].key != parts[j].key)
    && (forall part <- parts, row <- db.batches :: row.key != part.key)
    && db.generation + |parts| <= MAX_SQLITE_INTEGER
  }

  lemma {:induction false} PartsAreSlices(parts: seq<Batch>, i: nat)
    requires i < |parts|
    ensures var start := |Documents(parts[..i])|;
            start + |parts[i].documents| <= |Documents(parts)|
            && Documents(parts)[..start] == Documents(parts[..i])
            && Documents(parts)[start..start + |parts[i].documents|] == parts[i].documents
    decreases |parts|
  {
    var front, last := parts[..|parts| - 1], parts[|parts| - 1];
    if i < |front| {
      PartsAreSlices(front, i);
      assert front[..i] == parts[..i];
    }
  }

  lemma SliceIsValid(docs: seq<Document>, from: nat, to: nat)
    requires from <= to <= |docs| && Contiguous(docs)
    ensures Contiguous(docs[from..to])
  {
    var slice := docs[from..to];
    forall i, j | 0 <= i < j < |slice| && Neighbours(slice, i, j)
      ensures slice[j].seqNo == slice[i].seqNo + 1
    {
      assert forall k :: from + i < k < from + j ==> docs[k] == slice[k - from];
      assert Neighbours(docs, from + i, from + j);
    }
  }

  /** The state after the first parts is the state after their documents. */
  ghost predicate Reached(db: Db, parts: seq<Batch>, db': Db) {
    && IngestAll(Progress(db.tables, 0, 0), Documents(parts)).Ok?
    && db'.tables == IngestAll(Progress(db.tables, 0, 0), Documents(parts)).value.tables
    && db'.generation == db.generation + |parts|
    && db'.watermark == (if parts == [] then db.watermark else parts[|parts| - 1].watermark)
    && |db'.batches| == |db.batches| + |parts| && db.batches <= db'.batches
    && forall j :: |db.batches| <= j < |db'.batches| ==> db'.batches[j].key == parts[j - |db.batches|].key
  }

  lemma ApplyAllStep(db: Db, history: seq<Batch>, n: nat)
    requires n < |history|
    ensures ApplyAll(db, history[..n + 1]) == Apply(ApplyAll(db, history[..n]), history[n]).db
  {
    assert history[..n + 1][..n] == history[..n];
  }

  lemma NothingReached(db: Db, parts: seq<Batch>)
    requires parts == []
    ensures Reached(db, parts, ApplyAll(db, parts))
  {
  }

  lemma {:induction false} PartsReach(db: Db, parts: seq<Batch>, n: nat)
    requires n <= |parts| && FreshParts(db, parts)
    requires |Documents(parts)| <= MAX_BATCH_DOCUMENTS && Contiguous(Documents(parts))
    requires forall d <- Documents(parts) :: ValidDocument(d)
    requires IngestAll(Progress(db.tables, 0, 0), Documents(parts)).Ok?
    ensures Reached(db, parts[..n], ApplyAll(db, parts[..n]))
    ensures forall i :: 0 <= i < n ==> Fresh(Apply(ApplyAll(db, parts[..i]), parts[i]))
    decreases n
  {
    hide IngestAll, FreshParts, ContiguousTo, ValidDocument, Reached, Fresh, ApplyAll;
    if n == 0 {
      NothingReached(db, parts[..0]);
    } else {
      PartsReach(db, parts, n - 1);
      ApplyAllStep(db, parts, n - 1);
      PartIsAccepted(db, parts, n - 1, ApplyAll(db, parts[..n - 1]));
    }
  }

  lemma PartIsAccepted(db: Db, parts: seq<Batch>, i: nat, now: Db)
    requires i < |parts| && FreshParts(db, parts)
    requires |Documents(parts)| <= MAX_BATCH_DOCUMENTS && Contiguous(Documents(parts))
    requires forall d <- Documents(parts) :: ValidDocument(d)
    requires IngestAll(Progress(db.tables, 0, 0), Documents(parts)).Ok?
    requires Reached(db, parts[..i], now)
    ensures Fresh(Apply(now, parts[i])) && Reached(db, parts[..i + 1], Apply(now, parts[i]).db)
  {
    hide IngestOne, Neighbours, ContiguousTo, ValidDocument, Reached;
    PartDocuments(parts, i);
    PartIngests(db, parts, i, now);
    PartKeyIsNew(db, parts, i, now);
    PartCommits(db, parts, i, now);
  }

  lemma PartDocuments(parts: seq<Batch>, i: nat)
    requires i < |parts| && Contiguous(Documents(parts))
    requires forall d <- Documents(parts) :: ValidDocument(d)
    ensures |parts[i].documents| <= |Documents(parts)| && Contiguous(parts[i].documents)
    ensures forall d <- parts[i].documents :: ValidDocument(d)
    ensures Documents(parts[..i + 1]) == Documents(parts[..i]) + parts[i].documents
  {
    hide Documents, ContiguousTo, ValidDocument;
    PartsAreSlices(parts, i);
    DocumentsStep(parts, i);
    var docs, from := Documents(parts), |Documents(parts[..i])|;
    SliceIsValid(docs, from, from + |parts[i].documents|);
    forall d <- parts[i].documents
      ensures ValidDocument(d)
    {
      assert d in docs[from..from + |parts[i].documents|] && d in docs;
    }
  }

  lemma DocumentsStep(parts: seq<Batch>, i: nat)
    requires i < |parts|
    ensures Documents(parts[..i + 1]) == Documents(parts[..i]) + parts[i].documents
  {
    assert parts[..i + 1][..i] == parts[..i];
  }

  lemma PartIsAPrefix(parts: seq<Batch>, i: nat)
    requires i < |parts|
    ensures var upTo := Documents(parts[..i]) + parts[i].documents;
            Documents(parts[..i + 1]) == upTo && |upTo| <= |Documents(parts)|
            && Documents(parts) == upTo + Documents(parts)[|upTo|..]
  {
    hide Documents;
    PartsAreSlices(parts, i);
    DocumentsStep(parts, i);
    var docs, before := Documents(parts), Documents(parts[..i]);
    assert docs[..|before| + |parts[i].documents|] == before + parts[i].documents;
  }

  /** The documents of the next part are accepted by the state reached so far. */
  lemma PartIngests(db: Db, parts: seq<Batch>, i: nat, now: Db)
    requires i < |parts| && IngestAll(Progress(db.tables, 0, 0), Documents(parts)).Ok?
    requires Reached(db, parts[..i], now)
    ensures IngestAll(Progress(now.tables, 0, 0), parts[i].documents).Ok?
    ensures IngestAll(Progress(db.tables, 0, 0), Documents(parts[..i + 1])).Ok?
    ensures IngestAll(Progress(now.tables, 0, 0), parts[i].documents).value.tables
         == IngestAll(Progress(db.tables, 0, 0), Documents(parts[..i + 1])).value.tables
  {
    hide IngestAll;
    var p0, docs, before := Progress(db.tables, 0, 0), Documents(parts), Documents(parts[..i]);
    var upTo := before + parts[i].documents;
    PartIsAPrefix(parts, i);
    IngestConcat(p0, upTo, docs[|upTo|..]);
    IngestConcat(p0, before, parts[i].documents);
    CountersOnlyCount(IngestAll(p0, before).value, parts[i].documents);
  }

  lemma PartKeyIsNew(db: Db, parts: seq<Batch>, i: nat, now: Db)
    requires i < |parts| && FreshParts(db, parts) && Reached(db, parts[..i], now)
    ensures FindBatch(now.batches, parts[i].key) == None
  {
    hide IngestAll;
    forall j | 0 <= j < |now.batches|
      ensures now.batches[j].key != parts[i].key
    {
      if j < |db.batches| {
        assert now.batches[j] == db.batches[j];
      } else {
        assert now.batches[j].key == parts[..i][j - |db.batches|].key;
      }
    }
  }

  lemma PartCommits(db: Db, parts: seq<Batch>, i: nat, now: Db)
    requires i < |parts| && FreshParts(db, parts) && Reached(db, parts[..i], now)
    requires ValidBatch(parts[i]) && FindBatch(now.batches, parts[i].key) == None
    requires IngestAll(Progress(now.tables, 0, 0), parts[i].documents).Ok?
    requires IngestAll(Progress(db.tables, 0, 0), Documents(parts[..i + 1])).Ok?
    requires IngestAll(Progress(now.tables, 0, 0), parts[i].documents).value.tables
          == IngestAll(Progress(db.tables, 0, 0), Documents(parts[..i + 1])).value.tables
    ensures Fresh(Apply(now, parts[i])) && Reached(db, parts[..i + 1], Apply(now, parts[i]).db)
  {
    hide IngestAll, ValidBatch;
    assert now.watermark < parts[i].watermark by {
      if i > 0 {
        assert parts[..i][|parts[..i]| - 1] == parts[i - 1];
      }
    }
    forall j | |db.batches| <= j < |now.batches|
      ensures now.batches[j].key == parts[..i + 1][j - |db.batches|].key
    {
      assert now.batches[j].key == parts[..i][j - |db.batches|].key;
    }
  }

  /**
   If a document list is accepted as one batch, every cut of it into consecutive non-empty
   batches with fresh keys and rising watermarks is accepted, part by part and without a
   replayed batch, and stores exactly the same sessions and documents.
   */
  lemma SplitIndependence(db: Db, whole: Batch, parts: seq<Batch>)
    requires Fresh(Apply(db, whole)) && FreshParts(db, parts) && Documents(parts) == whole.documents
    ensures forall i :: 0 <= i < |parts| ==> Fresh(Apply(ApplyAll(db, parts[..i]), parts[i]))
    ensures ApplyAll(db, parts).tables == Apply(db, whole).db.tables
  {
    FreshApply(db, whole);
    PartsReach(db, parts, |parts|);
    assert parts[..|parts|] == parts;
  }

  // ---------- Sessions do not influence one another ----------

  predicate Disjoint(a: seq<Document>, b: seq<Document>) {
    forall i, j :: 0 <= i < |a| && 0 <= j < |b| ==> a[i].sessionId != b[j].sessionId
  }

  function Then(r: Result<Progress, IngestError>, d: Document): Result<Progress, IngestError> {
    match r
    case Ok(p) => IngestOne(p, d)
    case Err(e) => Err(e)
  }

  /** Ingesting d leaves every lookup of another session alone. */
  lemma OtherSessionUnmoved(p: Progress, d: Document, e: Document)
    requires d.sessionId != e.sessionId && IngestOne(p, d).Ok?
    ensures var t, t' := p.tables, IngestOne(p, d).value.tables;
            && (e.sessionId in t.sessions <==> e.sessionId in t'.sessions)
            && (e.sessionId in t.sessions ==> t'.sessions[e.sessionId] == t.sessions[e.sessionId])
            && (Coordinate(e) in t.documents <==> Coordinate(e) in t'.documents)
            && (Coordinate(e) in t.documents ==> t'.documents[Coordinate(e)] == t.documents[Coordinate(e)])
  {
  }

  lemma TwoCommute(p: Progress, d: Document, e: Document)
    requires d.sessionId != e.sessionId
    ensures Then(IngestOne(p, d), e).Ok? <==> IngestOne(p, d).Ok? && IngestOne(p, e).Ok?
    ensures IngestOne(p, d).Ok? && IngestOne(p, e).Ok? ==> Then(IngestOne(p, d), e) == Then(IngestOne(p, e), d)
  {
    if IngestOne(p, d).Ok? {
      OtherSessionUnmoved(p, d, e);
      SameVerdict(p.tables, IngestOne(p, d).value.tables, e);
    }
    if IngestOne(p, e).Ok? {
      OtherSessionUnmoved(p, e, d);
      SameVerdict(p.tables, IngestOne(p, e).value.tables, d);
    }
    hide VerdictOn;
    if IngestOne(p, d).Ok? && IngestOne(p, e).Ok? {
      var de, ed := Then(IngestOne(p, d), e), Then(IngestOne(p, e), d);
      assert de.value.tables.sessions == ed.value.tables.sessions;
      assert de.value.tables.documents == ed.value.tables.documents;
    }
  }

  /** The verdict on a document reads its own session and coordinate only. */
  lemma SameVerdict(t: Tables, t': Tables, d: Document)
    requires d.sessionId in t.sessions <==> d.sessionId in t'.sessions
    requires d.sessionId in t.sessions ==> t'.sessions[d.sessionId] == t.sessions[d.sessionId]
    requires Coordinate(d) in t.documents <==> Coordinate(d) in t'.documents
    requires Coordinate(d) in t.documents ==> t'.documents[Coordinate(d)] == t.documents[Coordinate(d)]
    ensures VerdictOn(t, d) == VerdictOn(t', d)
  {
  }

  lemma {:induction false} OnePastMany(p: Progress, a: seq<Document>, e: Document)
    requires Disjoint(a, [e])
    ensures Then(IngestAll(p, a), e).Ok? <==> IngestAll(p, a).Ok? && IngestOne(p, e).Ok?
    ensures IngestAll(p, a).Ok? && IngestOne(p, e).Ok? ==> IngestAll(IngestOne(p, e).value, a) == Then(IngestAll(p, a), e)
    decreases |a|
  {
    if a != [] {
      var front, d := a[..|a| - 1], a[|a| - 1];
      assert a[|a| - 1].sessionId != [e][0].sessionId;
      assert Disjoint(front, [e]);
      OnePastMany(p, front, e);
      if IngestAll(p, front).Ok? {
        TwoCommute(IngestAll(p, front).value, d, e);
      }
    }
  }

  /**
   Documents of disjoint sessions: whether each list is accepted does not depend on the
   other, and both orders end in the same tables with the same counts.
   */
  lemma {:induction false} DisjointSessionsCommute(p: Progress, a: seq<Document>, b: seq<Document>)
    requires Disjoint(a, b)
    ensures IngestAll(p, a + b).Ok? <==> IngestAll(p, a).Ok? && IngestAll(p, b).Ok?
    ensures IngestAll(p, a).Ok? && IngestAll(p, b).Ok? ==> IngestAll(p, a + b) == IngestAll(p, b + a)
    decreases |b|
  {
    if b == [] {
      assert a + b == a && b + a == a;
    } else {
      var front, e := b[..|b| - 1], b[|b| - 1];
      assert Disjoint(a, front);
      DisjointSessionsCommute(p, a, front);
      assert (a + b)[..|a + b| - 1] == a + front;
      IngestConcat(p, a, front);
      IngestConcat(p, front, a);
      IngestConcat(p, b, a);
      if IngestAll(p, front).Ok? && IngestAll(p, a).Ok? {
        var q := IngestAll(p, front).value;
        assert Disjoint(a, [e]);
        OnePastMany(q, a, e);
        MovedAcceptance(p, a, front, e);
      }
    }
  }

  /** After a, e is accepted exactly when it is accepted without a. */
  lemma MovedAcceptance(p: Progress, a: seq<Document>, front: seq<Document>, e: Document)
    requires IngestAll(p, front).Ok? && IngestAll(p, a + front).Ok? && IngestAll(p, a + front) == IngestAll(p, front + a)
    requires Disjoint(a, [e]) && IngestAll(IngestAll(p, front).value, a).Ok?
    ensures Then(IngestAll(p, a + front), e).Ok? <==> IngestOne(IngestAll(p, front).value, e).Ok?
  {
    IngestConcat(p, front, a);
    OnePastMany(IngestAll(p, front).value, a, e);
  }

  /** Two batches on disjoint sessions, in either order, leave the same tables. */
  lemma DisjointBatchesCommute(db: Db, a: Batch, b: Batch, a': Batch, b': Batch)
    requires a'.documents == a.documents && b'.documents == b.documents && Disjoint(a.documents, b.documents)
    requires Fresh(Apply(db, a)) && Fresh(Apply(Apply(db, a).db, b))
    requires Fresh(Apply(db, b')) && Fresh(Apply(Apply(db, b').db, a'))
    ensures Apply(Apply(db, a).db, b).db.tables == Apply(Apply(db, b').db, a').db.tables
  {
    var p := Progress(db.tables, 0, 0);
    FreshApply(db, a);
    FreshApply(Apply(db, a).db, b);
    FreshApply(db, b');
    FreshApply(Apply(db, b').db, a');
    DisjointSessionsCommute(p, a.documents, b.documents);
    IngestConcat(p, a.documents, b.documents);
    IngestConcat(p, b.documents, a.documents);
    CountersOnlyCount(IngestAll(p, a.documents).value, b.documents);
    CountersOnlyCount(IngestAll(p, b.documents).value, a.documents);
  }
}
