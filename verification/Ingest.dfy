/**
 The ingest engine: one batch of projected documents against four tables, in one
 transaction. The functions on values are the specification; class `SessionIndex`
 is the engine that updates its tables in place.
 */
module Ingest {
  import opened Wrappers
  import opened Texts

  const MAX_SESSION_ID_BYTES := 128
  const MAX_WORKSPACE_BYTES := 4_096
  const MAX_EVENT_TYPE_BYTES := 96
  const MAX_SURFACE_BYTES := 64
  const MAX_BODY_BYTES := 1_048_576
  const MAX_FINGERPRINT_BYTES := 256
  const MAX_REVISION_BYTES := 256
  const MAX_BATCH_KEY_BYTES := 256
  const MAX_SCOPE_TOKENS := 16
  const MAX_SCOPE_TOKEN_BYTES := 64
  const MAX_BATCH_DOCUMENTS := 10_000

  datatype Document = Document(
    sessionId: Text,
    seqNo: nat,
    eventTime: int,
    eventType: Text,
    surface: Text,
    workspaceId: Text,
    scopeTokens: seq<Text>,
    body: Text,
    fingerprint: Text,
    sourceRevision: Text)

  /** A digest is a free constructor: equal digests have equal inputs. */
  datatype Fingerprint = RawFingerprint(text: Text) | PayloadDigest(documents: seq<Document>)

  datatype Key =
    | RawKey(text: Text)
    | BatchDigest(watermark: nat, payload: Fingerprint, first: Coord, last: Coord)

  datatype Batch = Batch(key: Key, payload: Fingerprint, watermark: nat, documents: seq<Document>)

  datatype Receipt = Receipt(generation: nat, watermark: nat, inserted: nat, replayed: nat, batchReplayed: bool)

  // Rows of the four tables.

  datatype Session = Session(workspaceId: Text, nextSeq: nat, headerRevision: Text)

  datatype Coord = Coord(sessionId: Text, seqNo: nat)

  datatype Stored = Stored(
    eventTime: int,
    eventType: Text,
    surface: Text,
    workspaceId: Text,
    scopeTerms: set<Text>,
    body: Text,
    fingerprint: Text,
    sourceRevision: Text)

  datatype BatchRow = BatchRow(key: Key, payload: Fingerprint, watermark: nat, generation: nat, inserted: nat, replayed: nat)

  datatype Tables = Tables(sessions: map<Text, Session>, documents: map<Coord, Stored>)

  datatype Db = Db(tables: Tables, generation: nat, watermark: nat, batches: seq<BatchRow>)

  datatype IngestError =
    | InvalidMutation
    | NonMonotonicWatermark(current: nat, next: nat)
    | IdempotencyConflict(key: Key)
    | SequenceGap(sessionId: Text, expected: nat, actual: nat)
    | DocumentConflict(sessionId: Text, seqNo: nat)
    | WorkspaceConflict(sessionId: Text, expectedWorkspace: Text, actualWorkspace: Text)
    | ConstraintViolation   // SQLite refuses a second row at one (session_id, seq)

  const EMPTY: Db := Db(Tables(map[], map[]), 0, 0, [])

  // ---------- Validation ----------

  predicate ValidScopeToken(token: Text) {
    1 <= |token| <= MAX_SCOPE_TOKEN_BYTES
    && forall b <- token :: 97 <= b <= 122 || 48 <= b <= 57
  }

  predicate ValidScopeTokens(tokens: seq<Text>) {
    1 <= |tokens| <= MAX_SCOPE_TOKENS && forall token <- tokens :: ValidScopeToken(token)
  }

  function Coordinate(d: Document): Coord {
    Coord(d.sessionId, d.seqNo)
  }

  /** The stored row: scope tokens lose their order and repetitions. */
  function RowOf(d: Document): Stored {
    Stored(d.eventTime, d.eventType, d.surface, d.workspaceId, (set token <- d.scopeTokens), d.body, d.fingerprint, d.sourceRevision)
  }

  predicate ValidDocument(d: Document) {
    && TextWithin(d.sessionId, 1, MAX_SESSION_ID_BYTES)
    && d.seqNo <= MAX_SQLITE_INTEGER
    && TextWithin(d.eventType, 1, MAX_EVENT_TYPE_BYTES)
    && TextWithin(d.surface, 1, MAX_SURFACE_BYTES)
    && TextWithin(d.workspaceId, 1, MAX_WORKSPACE_BYTES)
    && TextWithin(d.body, 0, MAX_BODY_BYTES)
    && TextWithin(d.fingerprint, 1, MAX_FINGERPRINT_BYTES)
    && TextWithin(d.sourceRevision, 1, MAX_REVISION_BYTES)
    && ValidScopeTokens(d.scopeTokens)
  }

  predicate ValidKey(key: Key) {
    key.RawKey? ==> TextWithin(key.text, 1, MAX_BATCH_KEY_BYTES)
  }

  predicate ValidFingerprint(payload: Fingerprint) {
    payload.RawFingerprint? ==> TextWithin(payload.text, 1, MAX_FINGERPRINT_BYTES)
  }

  /** j is the next document of i's session. */
  predicate Neighbours(docs: seq<Document>, i: nat, j: nat)
    requires i < j < |docs|
  {
    docs[i].sessionId == docs[j].sessionId && forall k :: i < k < j ==> docs[k].sessionId != docs[i].sessionId
  }

  predicate ContiguousTo(docs: seq<Document>, n: nat)
    requires n <= |docs|
  {
    forall i, j :: 0 <= i < j < n && Neighbours(docs, i, j) ==> docs[j].seqNo == docs[i].seqNo + 1
  }

  /** Within each session the documents count up by one. */
  predicate Contiguous(docs: seq<Document>) {
    ContiguousTo(docs, |docs|)
  }

  /** lastAt is where each session was last seen among the first n documents. */
  ghost predicate LastSeen(docs: seq<Document>, n: nat, lastAt: map<Text, nat>)
    requires n <= |docs|
  {
    && (forall k :: 0 <= k < n ==> docs[k].sessionId in lastAt && k <= lastAt[docs[k].sessionId])
    && (forall s <- lastAt :: lastAt[s] < n && docs[lastAt[s]].sessionId == s)
  }

  lemma OnlyNeighbour(docs: seq<Document>, n: nat, lastAt: map<Text, nat>)
    requires n < |docs| && LastSeen(docs, n, lastAt)
    ensures forall i :: 0 <= i < n ==> (Neighbours(docs, i, n) <==> docs[n].sessionId in lastAt && i == lastAt[docs[n].sessionId])
    ensures LastSeen(docs, n + 1, lastAt[docs[n].sessionId := n])
  {
  }

  lemma NothingSeen(docs: seq<Document>)
    ensures ContiguousTo(docs, 0) && LastSeen(docs, 0, map[])
  {
  }

  lemma ContiguousPrefix(docs: seq<Document>, n: nat)
    requires n <= |docs|
    ensures Contiguous(docs) ==> ContiguousTo(docs, n)
  {
  }

  /** The next document keeps the run contiguous exactly when it follows the last of its session. */
  lemma ContiguousStep(docs: seq<Document>, n: nat, lastAt: map<Text, nat>)
    requires n < |docs| && ContiguousTo(docs, n) && LastSeen(docs, n, lastAt)
    ensures LastSeen(docs, n + 1, lastAt[docs[n].sessionId := n])
    ensures docs[n].sessionId in lastAt ==> lastAt[docs[n].sessionId] < n
    ensures ContiguousTo(docs, n + 1) <==>
              (docs[n].sessionId in lastAt ==> docs[n].seqNo == docs[lastAt[docs[n].sessionId]].seqNo + 1)
  {
    OnlyNeighbour(docs, n, lastAt);
    hide Neighbours;
    if ContiguousTo(docs, n + 1) && docs[n].sessionId in lastAt {
      assert Neighbours(docs, lastAt[docs[n].sessionId], n);
    }
  }

  predicate ValidBatch(batch: Batch) {
    && ValidKey(batch.key)
    && ValidFingerprint(batch.payload)
    && batch.watermark > 0
    && 1 <= |batch.documents| <= MAX_BATCH_DOCUMENTS
    && (forall d <- batch.documents :: ValidDocument(d))
    && Contiguous(batch.documents)
  }

  // ---------- One document, one batch ----------

  predicate StoredMatches(t: Tables, d: Document) {
    Coordinate(d) in t.documents && t.documents[Coordinate(d)] == RowOf(d)
  }

  /** What apply_batch decides about one document. */
  datatype Verdict = Insert(session: Session) | Replay | Refuse(error: IngestError)

  /** insert_document followed by update_session_after_insert, for a session in the given workspace. */
  function InsertOrRefuse(t: Tables, d: Document, workspaceId: Text): Verdict {
    if Coordinate(d) in t.documents then Refuse(ConstraintViolation)
    else if d.seqNo + 1 > MAX_SQLITE_INTEGER then Refuse(InvalidMutation)
    else Insert(Session(workspaceId, d.seqNo + 1, d.sourceRevision))
  }

  function VerdictOn(t: Tables, d: Document): Verdict {
    if d.sessionId !in t.sessions then
      if d.seqNo != 0 then Refuse(SequenceGap(d.sessionId, 0, d.seqNo))
      else InsertOrRefuse(t, d, d.workspaceId)
    else
      var session := t.sessions[d.sessionId];
      if session.workspaceId != d.workspaceId then
        Refuse(WorkspaceConflict(d.sessionId, session.workspaceId, d.workspaceId))
      else if d.seqNo > session.nextSeq then
        Refuse(SequenceGap(d.sessionId, session.nextSeq, d.seqNo))
      else if d.seqNo < session.nextSeq then
        if StoredMatches(t, d) then Replay else Refuse(DocumentConflict(d.sessionId, d.seqNo))
      else
        InsertOrRefuse(t, d, session.workspaceId)
  }

  datatype Progress = Progress(tables: Tables, inserted: nat, replayed: nat)

  function Insertion(t: Tables, d: Document, session: Session): Tables {
    Tables(t.sessions[d.sessionId := session], t.documents[Coordinate(d) := RowOf(d)])
  }

  function IngestOne(p: Progress, d: Document): Result<Progress, IngestError> {
    match VerdictOn(p.tables, d)
    case Insert(session) => Ok(Progress(Insertion(p.tables, d, session), p.inserted + 1, p.replayed))
    case Replay => Ok(p.(replayed := p.replayed + 1))
    case Refuse(e) => Err(e)
  }

  function IngestAll(p: Progress, docs: seq<Document>): Result<Progress, IngestError>
    decreases |docs|
  {
    if docs == [] then Ok(p)
    else
      match IngestAll(p, docs[..|docs| - 1])
      case Ok(p') => IngestOne(p', docs[|docs| - 1])
      case Err(e) => Err(e)
  }

  function FindBatch(rows: seq<BatchRow>, key: Key): (r: Option<BatchRow>)
    ensures r.Some? ==> r.value in rows && r.value.key == key
    ensures r.None? ==> forall row <- rows :: row.key != key
  {
    if rows == [] then None
    else if rows[0].key == key then Some(rows[0])
    else FindBatch(rows[1..], key)
  }

  predicate ExactReplay(db: Db, batch: Batch, row: BatchRow) {
    && row.payload == batch.payload
    && row.watermark == batch.watermark
    && row.inserted + row.replayed == |batch.documents|
    && forall d <- batch.documents :: StoredMatches(db.tables, d)
  }

  /** The state after one call, and its answer. */
  datatype Outcome = Outcome(db: Db, answer: Result<Receipt, IngestError>)

  function Commit(db: Db, batch: Batch, p: Progress): Outcome {
    var generation := db.generation + 1;
    if generation > MAX_SQLITE_INTEGER || batch.watermark > MAX_SQLITE_INTEGER then
      Outcome(db, Err(InvalidMutation))
    else
      Outcome(
        Db(p.tables, generation, batch.watermark,
           db.batches + [BatchRow(batch.key, batch.payload, batch.watermark, generation, p.inserted, p.replayed)]),
        Ok(Receipt(generation, batch.watermark, p.inserted, p.replayed, false)))
  }

  function Apply(db: Db, batch: Batch): Outcome {
    if !ValidBatch(batch) then Outcome(db, Err(InvalidMutation))
    else
      match FindBatch(db.batches, batch.key)
      case Some(row) =>
        if ExactReplay(db, batch, row)
        then Outcome(db, Ok(Receipt(row.generation, batch.watermark, row.inserted, row.replayed, true)))
        else Outcome(db, Err(IdempotencyConflict(batch.key)))
      case None =>
        if batch.watermark <= db.watermark then
          Outcome(db, Err(NonMonotonicWatermark(db.watermark, batch.watermark)))
        else
          match IngestAll(Progress(db.tables, 0, 0), batch.documents)
          case Err(e) => Outcome(db, Err(e))
          case Ok(p) => Commit(db, batch, p)
  }

  /** The state after a whole history of calls, accepted or not. */
  function ApplyAll(db: Db, history: seq<Batch>): Db
    decreases |history|
  {
    if history == [] then db
    else Apply(ApplyAll(db, history[..|history| - 1]), history[|history| - 1]).db
  }

  // ---------- The engine ----------

  class SessionIndex {
    var sessions: map<Text, Session>
    var documents: map<Coord, Stored>
    var generation: nat
    var watermark: nat
    var batches: seq<BatchRow>

    ghost function State(): Db
      reads this
    {
      Db(Tables(sessions, documents), generation, watermark, batches)
    }

    constructor ()
      ensures State() == EMPTY
    {
      sessions, documents, generation, watermark, batches := map[], map[], 0, 0, [];
    }

    /** The loop of validate_batch: one pass that remembers the last sequence number of each session. */
    static method ValidateDocuments(docs: seq<Document>) returns (valid: bool)
      ensures valid == ((forall d <- docs :: ValidDocument(d)) && Contiguous(docs))
    {
      hide ValidDocument, ContiguousTo, LastSeen;
      var lastSeq: map<Text, nat> := map[];
      ghost var lastAt: map<Text, nat> := map[];
      NothingSeen(docs);
      for n := 0 to |docs|
        invariant forall k :: 0 <= k < n ==> ValidDocument(docs[k])
        invariant ContiguousTo(docs, n) && LastSeen(docs, n, lastAt)
        invariant lastSeq.Keys == lastAt.Keys && forall s <- lastAt :: lastAt[s] < n && lastSeq[s] == docs[lastAt[s]].seqNo
      {
        var d := docs[n];
        if !ValidDocument(d) {
          return false;
        }
        ContiguousStep(docs, n, lastAt);
        if d.sessionId in lastSeq && d.seqNo != lastSeq[d.sessionId] + 1 {
          ContiguousPrefix(docs, n + 1);
          return false;
        }
        lastSeq := lastSeq[d.sessionId := d.seqNo];
        lastAt := lastAt[d.sessionId := n];
      }
      return true;
    }

    /** validate_batch */
    static method ValidateBatch(batch: Batch) returns (valid: bool)
      ensures valid == ValidBatch(batch)
    {
      if !ValidKey(batch.key) || !ValidFingerprint(batch.payload) || batch.watermark == 0
         || |batch.documents| == 0 || |batch.documents| > MAX_BATCH_DOCUMENTS {
        return false;
      }
      valid := ValidateDocuments(batch.documents);
    }

    /** replay_receipt: the stored receipt of this very batch, a conflict, or nothing. */
    method ReplayReceipt(batch: Batch) returns (r: Result<Option<Receipt>, IngestError>)
      ensures match FindBatch(batches, batch.key)
              case None => r == Ok(None)
              case Some(row) =>
                r == if ExactReplay(State(), batch, row)
                     then Ok(Some(Receipt(row.generation, batch.watermark, row.inserted, row.replayed, true)))
                     else Err(IdempotencyConflict(batch.key))
    {
      var found := FindBatch(batches, batch.key);
      if found.None? {
        return Ok(None);
      }
      var row := found.value;
      var exact := row.payload == batch.payload && row.watermark == batch.watermark
                   && row.inserted + row.replayed == |batch.documents|;
      if exact {
        for n := 0 to |batch.documents|
          invariant exact == forall k :: 0 <= k < n ==> StoredMatches(Tables(sessions, documents), batch.documents[k])
        {
          if !StoredMatches(Tables(sessions, documents), batch.documents[n]) {
            exact := false;
            break;
          }
        }
      }
      if !exact {
        return Err(IdempotencyConflict(batch.key));
      }
      return Ok(Some(Receipt(row.generation, batch.watermark, row.inserted, row.replayed, true)));
    }

    /** The body of the document loop: which of the branches of apply_batch a document takes. */
    static method Judge(t: Tables, d: Document) returns (verdict: Verdict)
      ensures verdict == VerdictOn(t, d)
    {
      if d.sessionId !in t.sessions {
        if d.seqNo != 0 {
          return Refuse(SequenceGap(d.sessionId, 0, d.seqNo));
        }
        return InsertOrRefuse(t, d, d.workspaceId);
      }
      var session := t.sessions[d.sessionId];
      if session.workspaceId != d.workspaceId {
        return Refuse(WorkspaceConflict(d.sessionId, session.workspaceId, d.workspaceId));
      }
      if d.seqNo > session.nextSeq {
        return Refuse(SequenceGap(d.sessionId, session.nextSeq, d.seqNo));
      }
      if d.seqNo < session.nextSeq {
        if StoredMatches(t, d) {
          return Replay;
        }
        return Refuse(DocumentConflict(d.sessionId, d.seqNo));
      }
      return InsertOrRefuse(t, d, session.workspaceId);
    }

    /** The document loop of apply_batch, on the tables of the transaction. */
    static method IngestDocuments(start: Tables, docs: seq<Document>) returns (r: Result<Progress, IngestError>)
      ensures r == IngestAll(Progress(start, 0, 0), docs)
    {
      hide IngestOne;
      var t := start;
      var inserted, replayed := 0, 0;
      ghost var p := Progress(start, 0, 0);
      for n := 0 to |docs|
        invariant IngestAll(p, docs[..n]) == Ok(Progress(t, inserted, replayed))
      {
        var verdict := Judge(t, docs[n]);
        IngestExtends(p, docs, n);
        match verdict
        case Insert(session) =>
          t := Insertion(t, docs[n], session);
          inserted := inserted + 1;
        case Replay =>
          replayed := replayed + 1;
        case Refuse(error) =>
          IngestFails(p, docs, n);
          return Err(error);
      }
      assert docs[..|docs|] == docs;
      return Ok(Progress(t, inserted, replayed));
    }

    /** apply_batch: nothing is published before every step of the transaction has succeeded. */
    method ApplyBatch(batch: Batch) returns (r: Result<Receipt, IngestError>)
      modifies this
      ensures State() == Apply(old(State()), batch).db
      ensures r == Apply(old(State()), batch).answer
    {
      hide ValidBatch, IngestAll, ExactReplay, FindBatch;
      var valid := ValidateBatch(batch);
      if !valid {
        return Err(InvalidMutation);
      }
      var replay := ReplayReceipt(batch);
      if replay.Err? {
        return Err(replay.error);
      }
      if replay.value.Some? {
        return Ok(replay.value.value);
      }
      if batch.watermark <= watermark {
        return Err(NonMonotonicWatermark(watermark, batch.watermark));
      }
      var ingested := IngestDocuments(Tables(sessions, documents), batch.documents);
      if ingested.Err? {
        return Err(ingested.error);
      }
      var p := ingested.value;
      if generation + 1 > MAX_SQLITE_INTEGER || batch.watermark > MAX_SQLITE_INTEGER {
        return Err(InvalidMutation);
      }
      sessions, documents := p.tables.sessions, p.tables.documents;
      generation, watermark := generation + 1, batch.watermark;
      batches := batches + [BatchRow(batch.key, batch.payload, batch.watermark, generation, p.inserted, p.replayed)];
      return Ok(Receipt(generation, batch.watermark, p.inserted, p.replayed, false));
    }
  }

  lemma IngestExtends(p: Progress, docs: seq<Document>, n: nat)
    requires n < |docs| && IngestAll(p, docs[..n]).Ok?
    ensures IngestAll(p, docs[..n + 1]) == IngestOne(IngestAll(p, docs[..n]).value, docs[n])
    ensures var q := IngestAll(p, docs[..n]).value;
            IngestOne(q, docs[n]) == match VerdictOn(q.tables, docs[n])
                                     case Insert(session) => Ok(Progress(Insertion(q.tables, docs[n], session), q.inserted + 1, q.replayed))
                                     case Replay => Ok(q.(replayed := q.replayed + 1))
                                     case Refuse(e) => Err(e)
  {
    assert docs[..n + 1][..n] == docs[..n];
  }

  /** The first document that fails decides the answer of the whole batch. */
  lemma {:induction false} IngestFails(p: Progress, docs: seq<Document>, n: nat)
    requires n < |docs| && IngestAll(p, docs[..n]).Ok?
    requires IngestOne(IngestAll(p, docs[..n]).value, docs[n]).Err?
    ensures IngestAll(p, docs) == Err(IngestOne(IngestAll(p, docs[..n]).value, docs[n]).error)
    decreases |docs|
  {
    if |docs| == n + 1 {
      assert docs[..|docs| - 1] == docs[..n];
    } else {
      var front := docs[..|docs| - 1];
      assert front[..n] == docs[..n];
      IngestFails(p, front, n);
    }
  }
}
