/**
 A materialized view: a state row, one checkpoint per partition and the rows of the
 conversation view, changed by partition mutations and lifecycle steps, each in one
 transaction. The functions are the specification; class `ViewStore` is the store.
 */
module Views {
  import opened Wrappers
  import opened Texts

  const MAX_ROWS_PER_MUTATION := 1_024
  const MAX_DELETES_PER_MUTATION := 1_024
  const MAX_PARTITION_KEY_BYTES := 256
  const MAX_TEXT_BYTES := 4_096
  const MAX_ROW_BYTES := 1_048_576
  const UNINITIALIZED: Text := [117, 110, 105, 110, 105, 116, 105, 97, 108, 105, 122, 101, 100]
  const PROVISIONAL: Text := [112, 114, 111, 118, 105, 115, 105, 111, 110, 97, 108]

  datatype Row = Row(
    key: Text,
    sessionId: Text,
    seqNo: nat,
    eventTime: int,
    eventType: Text,
    surface: Text,
    scopeToken: Text,
    body: Text,
    fingerprint: Text,
    title: Text,
    updatedAt: int)

  /** The serialized length of a row as it arrives. */
  type RowSize = Row -> nat

  datatype Source = Source(identity: Text, revision: Text, cursor: nat, fence: Text, lagMs: nat)

  datatype Mutation =
    | Replace(partition: Text, source: Source, rows: seq<Row>)
    | Delta(partition: Text, expectedCursor: nat, source: Source, upserts: seq<Row>, deletes: seq<Text>)
    | Delete(partition: Text, expectedCursor: nat, identity: Text, fence: Text, lagMs: nat)
  {
    function SourceFence(): Text {
      if Delete? then fence else source.fence
    }

    function Lag(): nat {
      if Delete? then lagMs else source.lagMs
    }

    function NextCursor(): Option<nat> {
      if Delete? then None else Some(source.cursor)
    }
  }

  datatype ViewState = Building | Ready | Failed

  datatype Lifecycle = Lifecycle(state: ViewState, fence: Text, lagMs: nat)

  // Rows of the three tables.

  datatype Meta = Meta(state: ViewState, generation: nat, fence: Text, lagMs: nat)

  datatype Checkpoint = Checkpoint(identity: Text, revision: Text, cursor: nat, generation: nat)

  datatype StoredRow = StoredRow(partition: Text, row: Row)

  datatype Store = Store(meta: Meta, partitions: map<Text, Checkpoint>, rows: map<Text, StoredRow>)

  datatype ViewError = InvalidMutation | CursorConflict(expected: nat, actual: nat) | SourceIdentityConflict

  datatype Receipt = Receipt(state: ViewState, generation: nat, partition: Option<Text>, nextCursor: Option<nat>, affectedRows: nat)

  datatype Outcome = Outcome(store: Store, answer: Result<Receipt, ViewError>)

  const CREATED: Store := Store(Meta(Building, 0, UNINITIALIZED, MAX_SQLITE_INTEGER), map[], map[])

  // ---------- Validation ----------

  predicate ValidScopeToken(token: Text) {
    1 <= |token| <= 64 && forall b <- token :: 97 <= b <= 122 || 48 <= b <= 57
  }

  predicate ValidRow(r: Row, partition: Text) {
    && r.sessionId == partition
    && TextWithin(r.key, 1, 256)
    && TextWithin(r.sessionId, 1, 128)
    && TextWithin(r.eventType, 1, 96)
    && TextWithin(r.surface, 1, 64)
    && ValidScopeToken(r.scopeToken)
    && TextWithin(r.body, 0, 1_048_576)
    && TextWithin(r.fingerprint, 1, 256)
    && TextWithin(r.title, 0, 4_096)
    && r.seqNo <= MAX_SQLITE_INTEGER
  }

  predicate ValidSource(partition: Text, source: Source) {
    && TextWithin(partition, 1, MAX_PARTITION_KEY_BYTES)
    && TextWithin(source.identity, 1, MAX_TEXT_BYTES)
    && TextWithin(source.revision, 1, MAX_TEXT_BYTES)
    && TextWithin(source.fence, 1, MAX_TEXT_BYTES)
  }

  function TotalSize(rows: seq<Row>, size: RowSize): nat
    decreases |rows|
  {
    if rows == [] then 0 else TotalSize(rows[..|rows| - 1], size) + size(rows[|rows| - 1])
  }

  predicate ValidRows(rows: seq<Row>, size: RowSize) {
    |rows| <= MAX_ROWS_PER_MUTATION && TotalSize(rows, size) <= MAX_ROW_BYTES
  }

  predicate ValidMutation(m: Mutation, size: RowSize) {
    match m
    case Replace(partition, source, rows) => ValidSource(partition, source) && ValidRows(rows, size)
    case Delta(partition, _, source, upserts, deletes) =>
      ValidSource(partition, source) && ValidRows(upserts, size) && |deletes| <= MAX_DELETES_PER_MUTATION
      && forall key <- deletes :: TextWithin(key, 1, 256)
    case Delete(partition, _, identity, fence, _) =>
      TextWithin(partition, 1, MAX_PARTITION_KEY_BYTES) && TextWithin(identity, 1, MAX_TEXT_BYTES) && TextWithin(fence, 1, MAX_TEXT_BYTES)
  }

  // ---------- Rows ----------

  /** UNIQUE(session_id, seq): some other row has the coordinate of r. */
  predicate CoordinateTaken(rows: map<Text, StoredRow>, r: Row) {
    exists key <- rows :: key != r.key && rows[key].row.sessionId == r.sessionId && rows[key].row.seqNo == r.seqNo
  }

  /** insert_row: the statement inserts r, or updates the row of that key in the same partition, or fails. */
  function PutRow(rows: map<Text, StoredRow>, partition: Text, r: Row): Option<map<Text, StoredRow>> {
    if !ValidRow(r, partition) then None
    else if r.key in rows && rows[r.key].partition != partition then None
    else if CoordinateTaken(rows, r) then None
    else Some(rows[r.key := StoredRow(partition, r)])
  }

  function PutRows(rows: map<Text, StoredRow>, partition: Text, more: seq<Row>): Option<map<Text, StoredRow>>
    decreases |more|
  {
    if more == [] then Some(rows)
    else
      match PutRows(rows, partition, more[..|more| - 1])
      case None => None
      case Some(now) => PutRow(now, partition, more[|more| - 1])
  }

  function WithoutPartition(rows: map<Text, StoredRow>, partition: Text): map<Text, StoredRow> {
    map key <- rows | rows[key].partition != partition :: rows[key]
  }

  function WithoutKeys(rows: map<Text, StoredRow>, partition: Text, keys: seq<Text>): map<Text, StoredRow> {
    map key <- rows | !(key in keys && rows[key].partition == partition) :: rows[key]
  }

  // ---------- Mutations ----------

  function CheckpointError(partitions: map<Text, Checkpoint>, partition: Text, expected: nat, identity: Text): Option<ViewError> {
    if partition !in partitions then Some(CursorConflict(expected, 0))
    else if partitions[partition].identity != identity then Some(SourceIdentityConflict)
    else if partitions[partition].cursor != expected then Some(CursorConflict(expected, partitions[partition].cursor))
    else None
  }

  /** What a mutation does to the rows of its partition, before its checkpoint is written. */
  datatype Handled = Handled(rows: map<Text, StoredRow>, affected: nat)

  function HandleReplace(st: Store, m: Mutation): Result<Handled, ViewError>
    requires m.Replace?
  {
    match PutRows(WithoutPartition(st.rows, m.partition), m.partition, m.rows)
    case None => Err(InvalidMutation)
    case Some(now) => Ok(Handled(now, |m.rows|))
  }

  function HandleDelta(st: Store, m: Mutation): Result<Handled, ViewError>
    requires m.Delta?
  {
    match CheckpointError(st.partitions, m.partition, m.expectedCursor, m.source.identity)
    case Some(e) => Err(e)
    case None =>
      if m.source.cursor < m.expectedCursor then Err(InvalidMutation)
      else
        match PutRows(WithoutKeys(st.rows, m.partition, m.deletes), m.partition, m.upserts)
        case None => Err(InvalidMutation)
        case Some(now) => Ok(Handled(now, |m.upserts| + |m.deletes|))
  }

  function HandleDelete(st: Store, m: Mutation): Result<Handled, ViewError>
    requires m.Delete?
  {
    match CheckpointError(st.partitions, m.partition, m.expectedCursor, m.identity)
    case Some(e) => Err(e)
    case None =>
      var kept := WithoutPartition(st.rows, m.partition);
      Ok(Handled(kept, |st.rows.Keys - kept.Keys|))
  }

  function HandleMutation(st: Store, m: Mutation): Result<Handled, ViewError> {
    if m.Replace? then HandleReplace(st, m) else if m.Delta? then HandleDelta(st, m) else HandleDelete(st, m)
  }

  /** upsert_checkpoint (or the removal of the checkpoint) and update_meta_progress, after the rows are in place. */
  function Publish(st: Store, m: Mutation, handled: Handled): Outcome {
    var generation := st.meta.generation + 1;
    if (!m.Delete? && m.source.cursor > MAX_SQLITE_INTEGER) || generation > MAX_SQLITE_INTEGER || m.Lag() > MAX_SQLITE_INTEGER then
      Outcome(st, Err(InvalidMutation))
    else
      Outcome(
        Store(Meta(st.meta.state, generation, m.SourceFence(), m.Lag()),
              if m.Delete? then st.partitions - {m.partition}
              else st.partitions[m.partition := Checkpoint(m.source.identity, m.source.revision, m.source.cursor, generation)],
              handled.rows),
        Ok(Receipt(st.meta.state, generation, Some(m.partition), m.NextCursor(), handled.affected)))
  }

  function Mutate(st: Store, m: Mutation, size: RowSize): Outcome {
    if !ValidMutation(m, size) then Outcome(st, Err(InvalidMutation))
    else
      match HandleMutation(st, m)
      case Err(e) => Outcome(st, Err(e))
      case Ok(handled) => Publish(st, m, handled)
  }

  function ApplyLifecycle(st: Store, step: Lifecycle): Outcome {
    var generation := st.meta.generation + 1;
    if !TextWithin(step.fence, 1, MAX_TEXT_BYTES) || generation > MAX_SQLITE_INTEGER || step.lagMs > MAX_SQLITE_INTEGER then
      Outcome(st, Err(InvalidMutation))
    else
      Outcome(st.(meta := Meta(step.state, generation, step.fence, step.lagMs)),
              Ok(Receipt(step.state, generation, None, None, 0)))
  }

  datatype Call = Mutating(mutation: Mutation) | Stepping(step: Lifecycle)

  function Answer(st: Store, call: Call, size: RowSize): Outcome {
    match call
    case Mutating(m) => Mutate(st, m, size)
    case Stepping(step) => ApplyLifecycle(st, step)
  }

  function AnswerAll(st: Store, calls: seq<Call>, size: RowSize): Store
    decreases |calls|
  {
    if calls == [] then st
    else Answer(AnswerAll(st, calls[..|calls| - 1], size), calls[|calls| - 1], size).store
  }

  // ---------- The store ----------

  class ViewStore {
    const size: RowSize
    var meta: Meta
    var partitions: map<Text, Checkpoint>
    var rows: map<Text, StoredRow>

    ghost function State(): Store
      reads this
    {
      Store(meta, partitions, rows)
    }

    constructor (size: RowSize)
      ensures State() == CREATED && this.size == size
    {
      this.size := size;
      meta := Meta(Building, 0, UNINITIALIZED, MAX_SQLITE_INTEGER);
      partitions, rows := map[], map[];
    }

    method ValidateRows(rows: seq<Row>) returns (valid: bool)
      ensures valid == ValidRows(rows, size)
    {
      if |rows| > MAX_ROWS_PER_MUTATION {
        return false;
      }
      var total := 0;
      for n := 0 to |rows|
        invariant total == TotalSize(rows[..n], size) <= MAX_ROW_BYTES
      {
        assert rows[..n + 1][..n] == rows[..n];
        total := total + size(rows[n]);
        if total > MAX_ROW_BYTES {
          PrefixIsSmaller(rows, n + 1, size);
          return false;
        }
      }
      assert rows[..|rows|] == rows;
      return true;
    }

    method ValidateMutation(m: Mutation) returns (valid: bool)
      ensures valid == ValidMutation(m, size)
    {
      match m
      case Replace(partition, source, rows) =>
        var rowsFit := ValidateRows(rows);
        return ValidSource(partition, source) && rowsFit;
      case Delta(partition, _, source, upserts, deletes) =>
        var rowsFit := ValidateRows(upserts);
        return ValidSource(partition, source) && rowsFit && |deletes| <= MAX_DELETES_PER_MUTATION
               && forall key <- deletes :: TextWithin(key, 1, 256);
      case Delete(partition, _, identity, fence, _) =>
        return TextWithin(partition, 1, MAX_PARTITION_KEY_BYTES) && TextWithin(identity, 1, MAX_TEXT_BYTES) && TextWithin(fence, 1, MAX_TEXT_BYTES);
    }

    /** The insert loop of replace_partition and of apply_delta. */
    static method InsertRows(start: map<Text, StoredRow>, partition: Text, more: seq<Row>) returns (r: Option<map<Text, StoredRow>>)
      ensures r == PutRows(start, partition, more)
    {
      var now := start;
      for n := 0 to |more|
        invariant PutRows(start, partition, more[..n]) == Some(now)
      {
        assert more[..n + 1][..n] == more[..n];
        var put := PutRow(now, partition, more[n]);
        if put.None? {
          RefusedStays(start, partition, more, n + 1);
          return None;
        }
        now := put.value;
      }
      assert more[..|more|] == more;
      return Some(now);
    }

    /** The delete loop of apply_delta. */
    static method DeleteKeys(start: map<Text, StoredRow>, partition: Text, keys: seq<Text>) returns (now: map<Text, StoredRow>)
      ensures now == WithoutKeys(start, partition, keys)
    {
      now := start;
      for n := 0 to |keys|
        invariant now == WithoutKeys(start, partition, keys[..n])
      {
        assert keys[..n + 1] == keys[..n] + [keys[n]];
        if keys[n] in now && now[keys[n]].partition == partition {
          now := now - {keys[n]};
        }
      }
      assert keys[..|keys|] == keys;
    }

    /** validate_checkpoint */
    method ValidateCheckpoint(partition: Text, expected: nat, identity: Text) returns (e: Option<ViewError>)
      ensures e == CheckpointError(partitions, partition, expected, identity)
    {
      if partition !in partitions {
        return Some(CursorConflict(expected, 0));
      }
      var stored := partitions[partition];
      if stored.identity != identity {
        return Some(SourceIdentityConflict);
      }
      if stored.cursor != expected {
        return Some(CursorConflict(expected, stored.cursor));
      }
      return None;
    }

    /**
     The handler's part of a mutation, on a working copy. Replacing installs a provisional
     checkpoint first, so that the rows have a parent.
     */
    method Handle(m: Mutation) returns (working: map<Text, Checkpoint>, r: Result<Handled, ViewError>)
      ensures r == HandleMutation(State(), m)
      ensures working == if m.Replace? && m.partition !in partitions then partitions[m.partition := Checkpoint(PROVISIONAL, PROVISIONAL, 0, 0)]
                         else if m.Delete? && r.Ok? then partitions - {m.partition}
                         else partitions
    {
      working := partitions;
      match m
      case Replace(partition, source, more) =>
        if partition !in partitions {
          working := partitions[partition := Checkpoint(PROVISIONAL, PROVISIONAL, 0, 0)];
        }
        var put := InsertRows(WithoutPartition(rows, partition), partition, more);
        return working, if put.None? then Err(InvalidMutation) else Ok(Handled(put.value, |more|));
      case Delta(partition, expected, source, upserts, deletes) =>
        var e := ValidateCheckpoint(partition, expected, source.identity);
        if e.Some? {
          return working, Err(e.value);
        }
        if source.cursor < expected {
          return working, Err(InvalidMutation);
        }
        var kept := DeleteKeys(rows, partition, deletes);
        var put := InsertRows(kept, partition, upserts);
        return working, if put.None? then Err(InvalidMutation) else Ok(Handled(put.value, |upserts| + |deletes|));
      case Delete(partition, expected, identity, _, _) =>
        var e := ValidateCheckpoint(partition, expected, identity);
        if e.Some? {
          return working, Err(e.value);
        }
        var kept := WithoutPartition(rows, partition);
        return partitions - {partition}, Ok(Handled(kept, |rows.Keys - kept.Keys|));
    }

    /** apply_mutation: nothing is published before every step of the transaction has succeeded. */
    method ApplyMutation(m: Mutation) returns (r: Result<Receipt, ViewError>)
      modifies this
      ensures State() == Mutate(old(State()), m, size).store
      ensures r == Mutate(old(State()), m, size).answer
    {
      hide HandleMutation, ValidMutation;
      var valid := ValidateMutation(m);
      if !valid {
        return Err(InvalidMutation);
      }
      var generation := meta.generation + 1;
      var working, handled := Handle(m);
      if handled.Err? {
        return Err(handled.error);
      }
      var fence, lagMs, cursor := m.SourceFence(), m.Lag(), m.NextCursor();
      if cursor.Some? {
        if cursor.value > MAX_SQLITE_INTEGER || generation > MAX_SQLITE_INTEGER {
          return Err(InvalidMutation);
        }
        working := working[m.partition := Checkpoint(m.source.identity, m.source.revision, cursor.value, generation)];
      }
      if generation > MAX_SQLITE_INTEGER || lagMs > MAX_SQLITE_INTEGER {
        return Err(InvalidMutation);
      }
      meta := Meta(meta.state, generation, fence, lagMs);
      partitions, rows := working, handled.value.rows;
      return Ok(Receipt(meta.state, generation, Some(m.partition), cursor, handled.value.affected));
    }

    /** apply_lifecycle */
    method Step(step: Lifecycle) returns (r: Result<Receipt, ViewError>)
      modifies this
      ensures State() == ApplyLifecycle(old(State()), step).store
      ensures r == ApplyLifecycle(old(State()), step).answer
    {
      if !TextWithin(step.fence, 1, MAX_TEXT_BYTES) {
        return Err(InvalidMutation);
      }
      var generation := meta.generation + 1;
      if generation > MAX_SQLITE_INTEGER || step.lagMs > MAX_SQLITE_INTEGER {
        return Err(InvalidMutation);
      }
      meta := Meta(step.state, generation, step.fence, step.lagMs);
      return Ok(Receipt(step.state, generation, None, None, 0));
    }
  }

  lemma {:induction false} PrefixIsSmaller(rows: seq<Row>, n: nat, size: RowSize)
    requires n <= |rows|
    ensures TotalSize(rows[..n], size) <= TotalSize(rows, size)
    decreases |rows|
  {
    if n < |rows| {
      assert rows[..|rows| - 1][..n] == rows[..n];
      PrefixIsSmaller(rows[..|rows| - 1], n, size);
    } else {
      assert rows[..n] == rows;
    }
  }

  lemma {:induction false} RefusedStays(rows: map<Text, StoredRow>, partition: Text, more: seq<Row>, n: nat)
    requires n <= |more| && PutRows(rows, partition, more[..n]) == None
    ensures PutRows(rows, partition, more) == None
    decreases |more|
  {
    if n < |more| {
      assert more[..|more| - 1][..n] == more[..n];
      RefusedStays(rows, partition, more[..|more| - 1], n);
    } else {
      assert more[..n] == more;
    }
  }
}
