/**
 The state row of a materialized view along every history of calls: whose state, fence and lag
 it shows, what its generation counts, and what the receipts say of it.
 */
module ViewLifecycle {
  import opened Wrappers
  import opened Texts
  import opened Views
  import opened ViewTheorems

  /** The store before the n-th call of a history, and whether that call is accepted. */
  function Before(calls: seq<Call>, n: nat, size: RowSize): Store
    requires n <= |calls|
  {
    AnswerAll(CREATED, calls[..n], size)
  }

  predicate Accepted(calls: seq<Call>, n: nat, size: RowSize)
    requires n < |calls|
  {
    Answer(Before(calls, n, size), calls[n], size).answer.Ok?
  }

  function FenceOf(call: Call): Text {
    if call.Stepping? then call.step.fence else call.mutation.SourceFence()
  }

  function LagOf(call: Call): nat {
    if call.Stepping? then call.step.lagMs else call.mutation.Lag()
  }

  /**
   An accepted lifecycle step leaves the state, fence and lag that it asks for under the next
   generation, and rows and checkpoints as they were; an accepted mutation leaves the state alone.
   Whatever is refused leaves everything alone.
   */
  lemma CallLeaves(st: Store, call: Call, size: RowSize)
    ensures var o := Answer(st, call, size);
            if o.answer.Err? then o.store == st
            else
              && o.store.meta.state == (if call.Stepping? then call.step.state else st.meta.state)
              && o.store.meta.fence == FenceOf(call) && o.store.meta.lagMs == LagOf(call)
              && o.store.meta.generation == st.meta.generation + 1
              && (call.Stepping? ==> o.store.rows == st.rows && o.store.partitions == st.partitions)
  {
    hide HandleMutation, ValidMutation;
  }

  /** Receipts show the stored state and generation, and of a mutation its partition and its new place. */
  lemma ReceiptsShowTheStore(st: Store, call: Call, size: RowSize)
    requires Answer(st, call, size).answer.Ok?
    ensures var o := Answer(st, call, size);
            var receipt := o.answer.value;
            && receipt.state == o.store.meta.state && receipt.generation == o.store.meta.generation
            && (receipt.partition.Some? <==> call.Mutating?)
            && (call.Stepping? ==> receipt.nextCursor == None && receipt.affectedRows == 0)
            && (call.Mutating? ==>
                  var p := call.mutation.partition;
                  && receipt.partition == Some(p)
                  && (receipt.nextCursor.Some? <==> p in o.store.partitions)
                  && (receipt.nextCursor.Some? ==>
                        receipt.nextCursor.value == o.store.partitions[p].cursor && receipt.generation == o.store.partitions[p].generation))
  {
    hide HandleMutation, ValidMutation;
  }

  /** Deleting a partition counts the rows it had; the other mutations count what they were given. */
  lemma AffectedRowsCount(st: Store, m: Mutation, size: RowSize)
    requires Mutate(st, m, size).answer.Ok?
    ensures var affected := Mutate(st, m, size).answer.value.affectedRows;
            match m
            case Replace(_, _, rows) => affected == |rows|
            case Delta(_, _, _, upserts, deletes) => affected == |upserts| + |deletes|
            case Delete(p, _, _, _, _) => affected == |set key | key in st.rows && st.rows[key].partition == p|
  {
    hide PutRows, WithoutKeys, ValidMutation;
    if m.Delete? {
      assert st.rows.Keys - WithoutPartition(st.rows, m.partition).Keys
          == set key | key in st.rows && st.rows[key].partition == m.partition;
    }
  }

  /** How many calls of the history were accepted. */
  function AcceptedCount(calls: seq<Call>, size: RowSize): nat
    decreases |calls|
  {
    if calls == [] then 0
    else AcceptedCount(calls[..|calls| - 1], size) + if Accepted(calls, |calls| - 1, size) then 1 else 0
  }

  /** The state is that of the last accepted lifecycle step, or the initial one. */
  ghost predicate ShowsState(calls: seq<Call>, size: RowSize, state: ViewState) {
    && (forall n :: 0 <= n < |calls| && LastStep(calls, n, size) ==> state == calls[n].step.state)
    && ((forall n :: 0 <= n < |calls| && calls[n].Stepping? ==> !Accepted(calls, n, size)) ==> state == Building)
  }

  /** Fence and lag are those of the last accepted call, or the initial ones. */
  ghost predicate ShowsPlace(calls: seq<Call>, size: RowSize, fence: Text, lagMs: nat) {
    && (forall n :: 0 <= n < |calls| && LastCall(calls, n, size) ==> fence == FenceOf(calls[n]) && lagMs == LagOf(calls[n]))
    && ((forall n :: 0 <= n < |calls| ==> !Accepted(calls, n, size)) ==> fence == UNINITIALIZED && lagMs == MAX_SQLITE_INTEGER)
  }

  /** The n-th call is the last accepted lifecycle step. */
  ghost predicate LastStep(calls: seq<Call>, n: nat, size: RowSize)
    requires n < |calls|
  {
    calls[n].Stepping? && Accepted(calls, n, size)
    && forall m :: n < m < |calls| && calls[m].Stepping? ==> !Accepted(calls, m, size)
  }

  /** The n-th call is the last accepted one. */
  ghost predicate LastCall(calls: seq<Call>, n: nat, size: RowSize)
    requires n < |calls|
  {
    Accepted(calls, n, size) && forall m :: n < m < |calls| ==> !Accepted(calls, m, size)
  }

  lemma AcceptedInFront(calls: seq<Call>, n: nat, size: RowSize)
    requires n + 1 < |calls|
    ensures Accepted(calls[..|calls| - 1], n, size) == Accepted(calls, n, size)
  {
    assert calls[..|calls| - 1][..n] == calls[..n];
  }

  /**
   After any history the state is that of the last accepted lifecycle step, or Building if there was
   none; fence and lag are those of the last accepted call; the generation counts the accepted calls.
   */
  lemma {:induction false} StateRowAfterHistory(calls: seq<Call>, size: RowSize)
    ensures var meta := AnswerAll(CREATED, calls, size).meta;
            ShowsState(calls, size, meta.state) && ShowsPlace(calls, size, meta.fence, meta.lagMs)
            && meta.generation == AcceptedCount(calls, size)
    decreases |calls|
  {
    if calls != [] {
      var front, last := calls[..|calls| - 1], |calls| - 1;
      var before, after := AnswerAll(CREATED, front, size), AnswerAll(CREATED, calls, size);
      StateRowAfterHistory(front, size);
      CallLeaves(before, calls[last], size);
      FrontAccepts(calls, size);
      assert after == Answer(before, calls[last], size).store;
      hide Answer, FenceOf, LagOf, ShowsState, ShowsPlace, AnswerAll;
      assert Accepted(calls, last, size) == Answer(before, calls[last], size).answer.Ok?;
      FrontCount(calls, size);
      hide Accepted;
      StateStep(calls, size, before.meta.state, after.meta.state);
      PlaceStep(calls, size, before.meta, after.meta);
    }
  }

  lemma FrontAccepts(calls: seq<Call>, size: RowSize)
    requires calls != []
    ensures var front := calls[..|calls| - 1];
            forall n :: 0 <= n < |front| ==> front[n] == calls[n] && Accepted(front, n, size) == Accepted(calls, n, size)
  {
    var front := calls[..|calls| - 1];
    hide Accepted;
    forall n | 0 <= n < |front|
      ensures front[n] == calls[n] && Accepted(front, n, size) == Accepted(calls, n, size)
    {
      AcceptedInFront(calls, n, size);
    }
  }

  lemma FrontCount(calls: seq<Call>, size: RowSize)
    requires calls != []
    ensures AcceptedCount(calls, size)
         == AcceptedCount(calls[..|calls| - 1], size) + if Accepted(calls, |calls| - 1, size) then 1 else 0
  {
  }

  /** One more call, and what the state shows of the history. */
  lemma StateStep(calls: seq<Call>, size: RowSize, state: ViewState, state': ViewState)
    requires calls != []
    requires var front := calls[..|calls| - 1];
             && ShowsState(front, size, state)
             && (forall n :: 0 <= n < |front| ==> front[n] == calls[n] && Accepted(front, n, size) == Accepted(calls, n, size))
    requires var last := |calls| - 1;
             state' == if calls[last].Stepping? && Accepted(calls, last, size) then calls[last].step.state else state
    ensures ShowsState(calls, size, state')
  {
    hide Accepted;
    var front, last := calls[..|calls| - 1], |calls| - 1;
    forall n | 0 <= n < |calls| && LastStep(calls, n, size)
      ensures state' == calls[n].step.state
    {
      if n < last {
        assert LastStep(front, n, size);
      }
    }
  }

  lemma PlaceStep(calls: seq<Call>, size: RowSize, meta: Meta, meta': Meta)
    requires calls != []
    requires var front := calls[..|calls| - 1];
             && ShowsPlace(front, size, meta.fence, meta.lagMs)
             && (forall n :: 0 <= n < |front| ==> front[n] == calls[n] && Accepted(front, n, size) == Accepted(calls, n, size))
    requires var last := |calls| - 1;
             if Accepted(calls, last, size) then meta'.fence == FenceOf(calls[last]) && meta'.lagMs == LagOf(calls[last])
             else meta'.fence == meta.fence && meta'.lagMs == meta.lagMs
    ensures ShowsPlace(calls, size, meta'.fence, meta'.lagMs)
  {
    hide Accepted, FenceOf, LagOf;
    var front, last := calls[..|calls| - 1], |calls| - 1;
    forall n | 0 <= n < |calls| && LastCall(calls, n, size)
      ensures meta'.fence == FenceOf(calls[n]) && meta'.lagMs == LagOf(calls[n])
    {
      if n < last {
        assert LastCall(front, n, size);
      }
    }
  }

  // ---------- Limits ----------

  predicate Within(text: Text, minimum: nat, maximum: nat) {
    minimum <= |text| <= maximum && 0 !in text
  }

  /** The limits of one stored row. */
  predicate RowWithin(row: Row) {
    && Within(row.key, 1, 256) && Within(row.sessionId, 1, 128) && row.seqNo <= MAX_SQLITE_INTEGER
    && Within(row.eventType, 1, 96) && Within(row.surface, 1, 64) && Within(row.body, 0, 1_048_576)
    && Within(row.fingerprint, 1, 256) && Within(row.title, 0, 4_096)
    && 1 <= |row.scopeToken| <= 64 && forall b: Byte <- row.scopeToken :: 97 <= b <= 122 || 48 <= b <= 57
  }

  /** After any history every stored row is within the limits of its fields, and of the session of its partition. */
  lemma StoredRowsAreWithinLimits(calls: seq<Call>, size: RowSize, key: Text)
    requires key in AnswerAll(CREATED, calls, size).rows
    ensures var stored := AnswerAll(CREATED, calls, size).rows[key];
            RowWithin(stored.row) && stored.row.key == key && stored.row.sessionId == stored.partition
  {
    EveryHistoryKeepsInv(calls, size);
    assert RowAt(AnswerAll(CREATED, calls, size), key);
  }

  /** An accepted mutation brings at most 1,024 rows of a mebibyte in all, and names at most 1,024 keys to delete. */
  lemma AcceptedIsBounded(st: Store, m: Mutation, size: RowSize)
    requires Mutate(st, m, size).answer.Ok?
    ensures m.Replace? ==> |m.rows| <= 1_024 && TotalSize(m.rows, size) <= 1_048_576
    ensures m.Delta? ==> |m.upserts| <= 1_024 && TotalSize(m.upserts, size) <= 1_048_576 && |m.deletes| <= 1_024
  {
    hide HandleMutation, TotalSize;
  }
}
