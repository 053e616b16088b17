/**
 What a materialized view keeps over every history of calls: rows with one parent each,
 checkpoints with distinct stamps, partitions that do not influence one another, and
 increments that amount to a rebuild.
 */
module ViewTheorems {
  import opened Wrappers
  import opened Texts
  import opened Views

  // ---------- The invariant ----------

  predicate RowAt(st: Store, key: Text)
    requires key in st.rows
  {
    var stored := st.rows[key];
    stored.row.key == key && stored.partition in st.partitions && ValidRow(stored.row, stored.partition)
  }

  /** No two rows share a coordinate. */
  ghost predicate DistinctCoordinates(rows: map<Text, StoredRow>) {
    forall a <- rows, b <- rows :: SameCoordinate(rows[a].row, rows[b].row) ==> a == b
  }

  predicate SameCoordinate(a: Row, b: Row) {
    a.sessionId == b.sessionId && a.seqNo == b.seqNo
  }

  /** Every row has exactly one parent, the partition of its session. */
  ghost predicate RowsInv(st: Store) {
    (forall key <- st.rows :: RowAt(st, key)) && DistinctCoordinates(st.rows)
  }

  /** Stamps are positive, at most the view's own generation, and pairwise distinct. */
  ghost predicate StampsInv(st: Store) {
    && st.meta.generation <= MAX_SQLITE_INTEGER
    && (forall p <- st.partitions :: 1 <= st.partitions[p].generation <= st.meta.generation && st.partitions[p].cursor <= MAX_SQLITE_INTEGER)
    && (forall p <- st.partitions, q <- st.partitions :: st.partitions[p].generation == st.partitions[q].generation ==> p == q)
  }

  predicate ValidPlace(p: Text, at: Checkpoint) {
    TextWithin(p, 1, MAX_PARTITION_KEY_BYTES) && TextWithin(at.identity, 1, MAX_TEXT_BYTES) && TextWithin(at.revision, 1, MAX_TEXT_BYTES)
  }

  /** Every checkpoint carries what a mutation may carry. */
  ghost predicate PlacesInv(st: Store) {
    forall p <- st.partitions :: ValidPlace(p, st.partitions[p])
  }

  ghost predicate StoreInv(st: Store) {
    RowsInv(st) && StampsInv(st) && PlacesInv(st)
  }

  /** Rows of one partition, all under existing keys and coordinates of their own. */
  ghost predicate GoodRows(rows: map<Text, StoredRow>) {
    && (forall key <- rows :: rows[key].row.key == key && ValidRow(rows[key].row, rows[key].partition))
    && DistinctCoordinates(rows)
  }

  lemma PutKeepsGood(rows: map<Text, StoredRow>, partition: Text, r: Row)
    requires GoodRows(rows) && PutRow(rows, partition, r).Some?
    ensures GoodRows(PutRow(rows, partition, r).value)
  {
    hide ValidRow;
    var rows' := PutRow(rows, partition, r).value;
    forall a <- rows', b <- rows' | SameCoordinate(rows'[a].row, rows'[b].row)
      ensures a == b
    {
      assert a == r.key || a in rows;
      assert b == r.key || b in rows;
    }
  }

  /** The newest of the rows with this key. */
  function Newest(more: seq<Row>, key: Text): (r: Option<Row>)
    ensures r.Some? ==> r.value in more && r.value.key == key
    ensures r.None? ==> forall row <- more :: row.key != key
    decreases |more|
  {
    if more == [] then None
    else if more[|more| - 1].key == key then Some(more[|more| - 1])
    else Newest(more[..|more| - 1], key)
  }

  function At(rows: map<Text, StoredRow>, key: Text): Option<StoredRow> {
    if key in rows then Some(rows[key]) else None
  }

  /** Inserting rows: every row is valid for the partition, the newest of each key wins, other keys stay. */
  lemma {:induction false} PutRowsMeaning(rows: map<Text, StoredRow>, partition: Text, more: seq<Row>)
    requires GoodRows(rows) && PutRows(rows, partition, more).Some?
    ensures var rows' := PutRows(rows, partition, more).value;
            && GoodRows(rows')
            && (forall r <- more :: ValidRow(r, partition))
            && (forall key :: At(rows', key) == match Newest(more, key)
                                                case Some(r) => Some(StoredRow(partition, r))
                                                case None => At(rows, key))
            && (forall key :: Newest(more, key).Some? && key in rows ==> rows[key].partition == partition)
    decreases |more|
  {
    if more != [] {
      var front, r := more[..|more| - 1], more[|more| - 1];
      PutRowsMeaning(rows, partition, front);
      var now := PutRows(rows, partition, front).value;
      PutKeepsGood(now, partition, r);
      hide GoodRows, CoordinateTaken, ValidRow;
      assert At(now, r.key) == match Newest(front, r.key) case Some(x) => Some(StoredRow(partition, x)) case None => At(rows, r.key);
    }
  }

  /** The rows a mutation of this partition leaves, key by key. */
  function RowAfter(st: Store, m: Mutation, key: Text): Option<StoredRow> {
    var before := At(st.rows, key);
    var own := before.Some? && before.value.partition == m.partition;
    match m
    case Replace(p, _, rows) =>
      (match Newest(rows, key) case Some(r) => Some(StoredRow(p, r)) case None => if own then None else before)
    case Delta(p, _, _, upserts, deletes) =>
      (match Newest(upserts, key) case Some(r) => Some(StoredRow(p, r)) case None => if own && key in deletes then None else before)
    case Delete(_, _, _, _, _) => if own then None else before
  }

  lemma SubsetIsGood(rows: map<Text, StoredRow>, kept: map<Text, StoredRow>)
    requires GoodRows(rows) && kept.Keys <= rows.Keys && forall key <- kept :: kept[key] == rows[key]
    ensures GoodRows(kept)
  {
  }

  lemma RowsAreGood(st: Store)
    requires RowsInv(st)
    ensures GoodRows(st.rows)
  {
    hide ValidRow;
    assert forall key <- st.rows :: RowAt(st, key);
  }

  lemma ReplaceRowsAfter(st: Store, m: Mutation)
    requires GoodRows(st.rows) && m.Replace? && HandleMutation(st, m).Ok?
    ensures var rows' := HandleMutation(st, m).value.rows;
            GoodRows(rows') && forall key :: At(rows', key) == RowAfter(st, m, key)
  {
    hide GoodRows, ValidRow, PutRows;
    SubsetIsGood(st.rows, WithoutPartition(st.rows, m.partition));
    PutRowsMeaning(WithoutPartition(st.rows, m.partition), m.partition, m.rows);
  }

  lemma DeltaRowsAfter(st: Store, m: Mutation)
    requires GoodRows(st.rows) && m.Delta? && HandleMutation(st, m).Ok?
    ensures var rows' := HandleMutation(st, m).value.rows;
            GoodRows(rows') && forall key :: At(rows', key) == RowAfter(st, m, key)
  {
    hide GoodRows, ValidRow, PutRows;
    SubsetIsGood(st.rows, WithoutKeys(st.rows, m.partition, m.deletes));
    PutRowsMeaning(WithoutKeys(st.rows, m.partition, m.deletes), m.partition, m.upserts);
  }

  lemma DeleteRowsAfter(st: Store, m: Mutation)
    requires GoodRows(st.rows) && m.Delete? && HandleMutation(st, m).Ok?
    ensures var rows' := HandleMutation(st, m).value.rows;
            GoodRows(rows') && forall key :: At(rows', key) == RowAfter(st, m, key)
  {
    hide GoodRows, ValidRow;
    SubsetIsGood(st.rows, WithoutPartition(st.rows, m.partition));
  }

  lemma PublishedRows(st: Store, m: Mutation, size: RowSize)
    requires Mutate(st, m, size).answer.Ok?
    ensures HandleMutation(st, m).Ok? && Mutate(st, m, size).store.rows == HandleMutation(st, m).value.rows
  {
    hide HandleMutation, ValidMutation;
  }

  /** What the mutation does to the table of rows. */
  lemma RowsAfter(st: Store, m: Mutation, size: RowSize)
    requires StoreInv(st) && Mutate(st, m, size).answer.Ok?
    ensures var st' := Mutate(st, m, size).store;
            GoodRows(st'.rows) && forall key :: At(st'.rows, key) == RowAfter(st, m, key)
  {
    RowsAreGood(st);
    PublishedRows(st, m, size);
    hide *;
    if m.Replace? {
      ReplaceRowsAfter(st, m);
    } else if m.Delta? {
      DeltaRowsAfter(st, m);
    } else {
      DeleteRowsAfter(st, m);
    }
  }

  /** A checkpoint written or removed, and nothing else done to the checkpoints. */
  lemma CheckpointsAfter(st: Store, m: Mutation, size: RowSize)
    requires Mutate(st, m, size).answer.Ok?
    ensures var st' := Mutate(st, m, size).store;
            && st'.meta == Meta(st.meta.state, st.meta.generation + 1, m.SourceFence(), m.Lag())
            && st'.meta.generation <= MAX_SQLITE_INTEGER
            && st'.partitions == (if m.Delete? then st.partitions - {m.partition}
                                  else st.partitions[m.partition := Checkpoint(m.source.identity, m.source.revision, m.source.cursor, st'.meta.generation)])
            && (!m.Delete? ==> m.source.cursor <= MAX_SQLITE_INTEGER)
  {
  }

  lemma StampsKept(st: Store, m: Mutation, size: RowSize)
    requires StampsInv(st) && Mutate(st, m, size).answer.Ok?
    ensures StampsInv(Mutate(st, m, size).store)
  {
    CheckpointsAfter(st, m, size);
    hide Mutate;
  }

  lemma PlacesKept(st: Store, m: Mutation, size: RowSize)
    requires PlacesInv(st) && Mutate(st, m, size).answer.Ok?
    ensures PlacesInv(Mutate(st, m, size).store)
  {
    hide HandleMutation, ValidRows;
  }

  /** Distinct stamps up to the generation leave room for no more partitions than that. */
  lemma NoMorePartitionsThanGenerations(st: Store)
    requires StampsInv(st)
    ensures |st.partitions| <= st.meta.generation
  {
    var keys := st.partitions.Keys;
    NoMoreThanStamps(st, keys, st.meta.generation);
    assert |keys| == |st.partitions|;
  }

  lemma {:induction false} NoMoreThanStamps(st: Store, keys: set<Text>, n: nat)
    requires keys <= st.partitions.Keys
    requires forall p <- keys :: 1 <= st.partitions[p].generation <= n
    requires forall p <- keys, q <- keys :: st.partitions[p].generation == st.partitions[q].generation ==> p == q
    ensures |keys| <= n
    decreases n
  {
    if p :| p in keys && st.partitions[p].generation == n {
      NoMoreThanStamps(st, keys - {p}, n - 1);
    } else if n > 0 {
      NoMoreThanStamps(st, keys, n - 1);
    } else {
      assert keys == {};
    }
  }

  lemma RowKept(st: Store, m: Mutation, size: RowSize, key: Text)
    requires StoreInv(st) && Mutate(st, m, size).answer.Ok? && key in Mutate(st, m, size).store.rows
    ensures RowAt(Mutate(st, m, size).store, key)
  {
    hide ValidRow, StampsInv, Mutate;
    var st' := Mutate(st, m, size).store;
    RowsAfter(st, m, size);
    CheckpointsAfter(st, m, size);
    assert At(st'.rows, key) == RowAfter(st, m, key);
    if key in st.rows {
      assert RowAt(st, key);
    }
  }

  lemma MutateKeepsInv(st: Store, m: Mutation, size: RowSize)
    requires StoreInv(st)
    ensures StoreInv(Mutate(st, m, size).store)
  {
    var o := Mutate(st, m, size);
    if o.answer.Ok? {
      RowsAfter(st, m, size);
      StampsKept(st, m, size);
      PlacesKept(st, m, size);
      forall key <- o.store.rows
        ensures RowAt(o.store, key)
      {
        RowKept(st, m, size, key);
      }
      hide RowAt, Mutate, StampsInv, PlacesInv;
    } else {
      RefusedMutationChangesNothing(st, m, size);
    }
  }

  lemma RefusedMutationChangesNothing(st: Store, m: Mutation, size: RowSize)
    requires Mutate(st, m, size).answer.Err?
    ensures Mutate(st, m, size).store == st
  {
  }

  lemma LifecycleKeepsInv(st: Store, step: Lifecycle)
    requires StoreInv(st)
    ensures StoreInv(ApplyLifecycle(st, step).store)
    ensures ApplyLifecycle(st, step).store.rows == st.rows && ApplyLifecycle(st, step).store.partitions == st.partitions
  {
    hide ValidRow;
    var st' := ApplyLifecycle(st, step).store;
    assert forall key <- st'.rows :: RowAt(st, key) ==> RowAt(st', key);
  }

  /** In every reachable view each row has its one parent, and stamps are distinct and bounded. */
  lemma {:induction false} EveryHistoryKeepsInv(calls: seq<Call>, size: RowSize)
    ensures StoreInv(AnswerAll(CREATED, calls, size))
    decreases |calls|
  {
    if calls != [] {
      hide StoreInv, Mutate, ApplyLifecycle;
      var before := AnswerAll(CREATED, calls[..|calls| - 1], size);
      EveryHistoryKeepsInv(calls[..|calls| - 1], size);
      match calls[|calls| - 1]
      case Mutating(m) => MutateKeepsInv(before, m, size);
      case Stepping(step) => LifecycleKeepsInv(before, step);
    }
  }

  /** A provisional checkpoint carries generation 0, and no stored one does. */
  lemma ProvisionalNeverSurvives(calls: seq<Call>, size: RowSize, partition: Text)
    ensures var st := AnswerAll(CREATED, calls, size);
            partition in st.partitions ==> st.partitions[partition] != Checkpoint(PROVISIONAL, PROVISIONAL, 0, 0)
  {
    EveryHistoryKeepsInv(calls, size);
    hide AnswerAll;
  }

  /** A mutation leaves the rows and the checkpoint of every other partition alone. */
  lemma OtherPartitionsUntouched(st: Store, m: Mutation, size: RowSize, other: Text)
    requires StoreInv(st) && other != m.partition
    ensures var st' := Mutate(st, m, size).store;
            && (other in st.partitions <==> other in st'.partitions)
            && (other in st.partitions ==> st'.partitions[other] == st.partitions[other])
            && forall key :: (key in st.rows && st.rows[key].partition == other <==> key in st'.rows && st'.rows[key].partition == other)
                          && (key in st.rows && st.rows[key].partition == other ==> st'.rows[key] == st.rows[key])
  {
    var o := Mutate(st, m, size);
    if o.answer.Ok? {
      RowsAfter(st, m, size);
      CheckpointsAfter(st, m, size);
      hide Mutate;
      forall key
        ensures key in st.rows && st.rows[key].partition == other <==> key in o.store.rows && o.store.rows[key].partition == other
        ensures key in st.rows && st.rows[key].partition == other ==> o.store.rows[key] == st.rows[key]
      {
        OtherRowUntouched(st, m, size, other, key);
      }
    } else {
      RefusedMutationChangesNothing(st, m, size);
    }
  }

  lemma OtherRowUntouched(st: Store, m: Mutation, size: RowSize, other: Text, key: Text)
    requires StoreInv(st) && Mutate(st, m, size).answer.Ok? && other != m.partition
    ensures At(st.rows, key) != At(Mutate(st, m, size).store.rows, key) ==>
              !(key in st.rows && st.rows[key].partition == other)
              && !(key in Mutate(st, m, size).store.rows && Mutate(st, m, size).store.rows[key].partition == other)
  {
    RowsAfter(st, m, size);
    if key in st.rows && st.rows[key].partition != m.partition {
      ForeignKeysAreRefused(st, m, size, key);
    }
    hide Mutate, StoreInv;
    assert At(Mutate(st, m, size).store.rows, key) == RowAfter(st, m, key);
  }

  /** An accepted mutation brings no row whose key belongs to another partition. */
  lemma ForeignKeysAreRefused(st: Store, m: Mutation, size: RowSize, key: Text)
    requires StoreInv(st) && Mutate(st, m, size).answer.Ok?
    requires key in st.rows && st.rows[key].partition != m.partition
    ensures m.Replace? ==> Newest(m.rows, key).None?
    ensures m.Delta? ==> Newest(m.upserts, key).None?
  {
    RowsAreGood(st);
    hide RowsInv, StampsInv, GoodRows, ValidRow, PutRows, ValidMutation;
    match m
    case Replace(p, _, rows) =>
      SubsetIsGood(st.rows, WithoutPartition(st.rows, p));
      PutRowsMeaning(WithoutPartition(st.rows, p), p, rows);
      assert key in WithoutPartition(st.rows, p);
    case Delta(p, _, _, upserts, deletes) =>
      SubsetIsGood(st.rows, WithoutKeys(st.rows, p, deletes));
      PutRowsMeaning(WithoutKeys(st.rows, p, deletes), p, upserts);
      assert key in WithoutKeys(st.rows, p, deletes);
    case Delete(_, _, _, _, _) =>
  }

  /**
   A delta is only taken by the partition at the expected place of the same source, and moves it
   forward; only a replacement can change the source or rewind.
   */
  lemma DeltasMoveForward(st: Store, m: Mutation, size: RowSize)
    requires m.Delta? && Mutate(st, m, size).answer.Ok?
    ensures var st' := Mutate(st, m, size).store;
            && m.partition in st.partitions && m.partition in st'.partitions
            && st.partitions[m.partition].cursor == m.expectedCursor <= st'.partitions[m.partition].cursor
            && st.partitions[m.partition].identity == st'.partitions[m.partition].identity
            && Mutate(st, m, size).answer.value.nextCursor == Some(st'.partitions[m.partition].cursor)
  {
    hide PutRows, WithoutKeys, ValidMutation;
  }

  /** What the checkpoint says decides between the conflicts; a missing partition counts as cursor 0. */
  lemma CheckpointExactly(st: Store, m: Mutation, size: RowSize)
    requires !m.Replace? && ValidMutation(m, size)
    ensures var identity := if m.Delta? then m.source.identity else m.identity;
            var at := if m.partition in st.partitions then Some(st.partitions[m.partition]) else None;
            && (Mutate(st, m, size).answer == Err(SourceIdentityConflict) <==> at.Some? && at.value.identity != identity)
            && (Mutate(st, m, size).answer == Err(CursorConflict(m.expectedCursor, if at.Some? then at.value.cursor else 0)) <==>
                  at.None? || (at.value.identity == identity && at.value.cursor != m.expectedCursor))
  {
    hide PutRows, WithoutKeys, WithoutPartition, ValidMutation;
  }

  // ---------- Increments amount to a rebuild ----------

  /** listing holds each row of the partition once, in any order. */
  ghost predicate Lists(rows: map<Text, StoredRow>, partition: Text, listing: seq<Row>) {
    && (forall i :: 0 <= i < |listing| ==> listing[i].key in rows && rows[listing[i].key] == StoredRow(partition, listing[i]))
    && (forall i, j :: 0 <= i < j < |listing| ==> listing[i].key != listing[j].key)
    && (forall key <- rows :: rows[key].partition == partition ==> ListedAt(listing, key))
  }

  ghost predicate ListedAt(listing: seq<Row>, key: Text) {
    exists i :: 0 <= i < |listing| && listing[i].key == key
  }

  ghost predicate SubMap(a: map<Text, StoredRow>, b: map<Text, StoredRow>) {
    forall key <- a :: key in b && b[key] == a[key]
  }

  lemma PutFromGood(part: map<Text, StoredRow>, all: map<Text, StoredRow>, partition: Text, r: Row)
    requires GoodRows(all) && SubMap(part, all) && r.key in all && all[r.key] == StoredRow(partition, r)
    ensures PutRow(part, partition, r) == Some(part[r.key := StoredRow(partition, r)])
    ensures SubMap(part[r.key := StoredRow(partition, r)], all)
  {
    hide ValidRow;
    forall key <- part | key != r.key
      ensures !SameCoordinate(part[key].row, r)
    {
      assert key in all && all[key] == part[key];
    }
  }

  /** Rows taken from one well-formed table can be inserted in any order. */
  lemma {:induction false} PutListing(part: map<Text, StoredRow>, all: map<Text, StoredRow>, partition: Text, listing: seq<Row>)
    requires GoodRows(all) && SubMap(part, all)
    requires forall i :: 0 <= i < |listing| ==> listing[i].key in all && all[listing[i].key] == StoredRow(partition, listing[i])
    ensures PutRows(part, partition, listing).Some?
    ensures var now := PutRows(part, partition, listing).value;
            SubMap(now, all) && forall key :: key in now <==> key in part || ListedAt(listing, key)
    decreases |listing|
  {
    if listing != [] {
      var front, r := listing[..|listing| - 1], listing[|listing| - 1];
      PutListing(part, all, partition, front);
      PutFromGood(PutRows(part, partition, front).value, all, partition, r);
      hide GoodRows, SubMap, PutRow;
      forall key
        ensures ListedAt(listing, key) <==> ListedAt(front, key) || key == r.key
      {
        ListedOneMore(listing, key);
      }
    }
  }

  lemma ListedOneMore(listing: seq<Row>, key: Text)
    requires listing != []
    ensures ListedAt(listing, key) <==> ListedAt(listing[..|listing| - 1], key) || key == listing[|listing| - 1].key
  {
    if ListedAt(listing, key) && key != listing[|listing| - 1].key {
      var i :| 0 <= i < |listing| && listing[i].key == key;
      assert listing[..|listing| - 1][i].key == key;
    }
    if ListedAt(listing[..|listing| - 1], key) {
      var i :| 0 <= i < |listing| - 1 && listing[..|listing| - 1][i].key == key;
      assert listing[i].key == key;
    }
    if key == listing[|listing| - 1].key {
      assert listing[|listing| - 1].key == key;
    }
  }

  /** Whatever the partition held before, inserting its listing gives the table of rows it was taken from. */
  lemma ListingRestores(part: map<Text, StoredRow>, all: map<Text, StoredRow>, partition: Text, listing: seq<Row>)
    requires GoodRows(all) && Lists(all, partition, listing) && part == WithoutPartition(all, partition)
    ensures PutRows(part, partition, listing) == Some(all)
  {
    PutListing(part, all, partition, listing);
    hide GoodRows, PutRows;
    var now := PutRows(part, partition, listing).value;
    assert forall key <- all :: key in now;
    assert now == all;
  }

  lemma OtherRowsAgree(st: Store, m: Mutation, size: RowSize)
    requires StoreInv(st) && Mutate(st, m, size).answer.Ok?
    ensures WithoutPartition(st.rows, m.partition) == WithoutPartition(Mutate(st, m, size).store.rows, m.partition)
  {
    hide StoreInv, Mutate;
    var a, b := WithoutPartition(st.rows, m.partition), WithoutPartition(Mutate(st, m, size).store.rows, m.partition);
    forall key
      ensures At(a, key) == At(b, key)
    {
      if key in st.rows && st.rows[key].partition != m.partition {
        OtherRowUntouched(st, m, size, st.rows[key].partition, key);
      }
      if key in Mutate(st, m, size).store.rows && Mutate(st, m, size).store.rows[key].partition != m.partition {
        OtherRowUntouched(st, m, size, Mutate(st, m, size).store.rows[key].partition, key);
      }
    }
    assert forall key :: (key in a <==> At(a, key).Some?) && (key in b <==> At(b, key).Some?);
    assert forall key <- a :: a[key] == At(a, key).value && b[key] == At(b, key).value;
  }

  /**
   An accepted delta leaves exactly the store that replacing the partition with its resulting
   rows would have left, listed once each in any order, whenever those rows fit one mutation.
   */
  lemma DeltaIsReplace(st: Store, delta: Mutation, size: RowSize, listing: seq<Row>)
    requires StoreInv(st) && delta.Delta? && Mutate(st, delta, size).answer.Ok?
    requires Lists(Mutate(st, delta, size).store.rows, delta.partition, listing) && ValidRows(listing, size)
    ensures var replace := Replace(delta.partition, delta.source, listing);
            Mutate(st, replace, size).answer.Ok? && Mutate(st, replace, size).store == Mutate(st, delta, size).store
  {
    var st' := Mutate(st, delta, size).store;
    RowsAfter(st, delta, size);
    OtherRowsAgree(st, delta, size);
    CheckpointsAfter(st, delta, size);
    ListingRestores(WithoutPartition(st'.rows, delta.partition), st'.rows, delta.partition, listing);
    hide GoodRows, PutRows, Lists, StoreInv, ValidRows, CheckpointError, WithoutPartition;
  }

  // ---------- Exactly when a replacement is accepted ----------

  ghost predicate DistinctKeys(rows: seq<Row>) {
    forall i, j :: 0 <= i < j < |rows| ==> rows[i].key != rows[j].key
  }

  /** Rows that can stand together in one empty partition beside the rows given. */
  ghost predicate Fitting(rows: map<Text, StoredRow>, partition: Text, more: seq<Row>) {
    && (forall i :: 0 <= i < |more| ==> ValidRow(more[i], partition) && more[i].key !in rows)
    && (forall i, j :: 0 <= i < j < |more| ==> more[i].seqNo != more[j].seqNo)
  }

  lemma FittingStep(rows: map<Text, StoredRow>, partition: Text, more: seq<Row>)
    requires more != []
    ensures var front, r := more[..|more| - 1], more[|more| - 1];
            Fitting(rows, partition, more) <==>
            Fitting(rows, partition, front) && ValidRow(r, partition) && r.key !in rows && SeqIsNew(front, r)
  {
    hide ValidRow;
    var front := more[..|more| - 1];
    assert forall i :: 0 <= i < |front| ==> front[i] == more[i];
  }

  predicate SeqIsNew(rows: seq<Row>, r: Row) {
    forall i :: 0 <= i < |rows| ==> rows[i].seqNo != r.seqNo
  }

  lemma TakenMeansRepeated(rows: map<Text, StoredRow>, now: map<Text, StoredRow>, partition: Text, front: seq<Row>, r: Row)
    requires GoodRows(rows) && (forall key <- rows :: rows[key].partition != partition)
    requires ValidRow(r, partition) && (forall i :: 0 <= i < |front| ==> front[i].key != r.key && front[i].sessionId == partition)
    requires forall key <- now :: (key in rows && now[key] == rows[key]) || (exists i :: 0 <= i < |front| && now[key].row == front[i])
    requires forall i :: 0 <= i < |front| ==> front[i].key in now && now[front[i].key].row == front[i]
    ensures CoordinateTaken(now, r) <==> !SeqIsNew(front, r)
  {
    if CoordinateTaken(now, r) {
      var key :| key in now && key != r.key && now[key].row.sessionId == r.sessionId && now[key].row.seqNo == r.seqNo;
      assert !(key in rows && now[key] == rows[key]);
    }
    if !SeqIsNew(front, r) {
      var i :| 0 <= i < |front| && front[i].seqNo == r.seqNo;
      assert front[i].key in now;
    }
  }

  lemma {:induction false} PutRowsExactly(rows: map<Text, StoredRow>, partition: Text, more: seq<Row>)
    requires GoodRows(rows) && (forall key <- rows :: rows[key].partition != partition) && DistinctKeys(more)
    ensures PutRows(rows, partition, more).Some? <==> Fitting(rows, partition, more)
    decreases |more|
  {
    if more != [] {
      var front, r := more[..|more| - 1], more[|more| - 1];
      PutRowsExactly(rows, partition, front);
      FittingStep(rows, partition, more);
      if PutRows(rows, partition, front).Some? && ValidRow(r, partition) {
        var now := PutRows(rows, partition, front).value;
        PutStoresEach(rows, partition, front);
        PutStoresOnly(rows, partition, front);
        assert r.key in now <==> r.key in rows;
        TakenMeansRepeated(rows, now, partition, front, r);
      }
    }
  }

  lemma PutRowStores(rows: map<Text, StoredRow>, partition: Text, r: Row)
    requires PutRow(rows, partition, r).Some?
    ensures PutRow(rows, partition, r).value == rows[r.key := StoredRow(partition, r)] && r.sessionId == partition
  {
  }

  lemma PutRowsStep(rows: map<Text, StoredRow>, partition: Text, more: seq<Row>)
    requires more != [] && PutRows(rows, partition, more).Some?
    ensures var front, r := more[..|more| - 1], more[|more| - 1];
            PutRows(rows, partition, front).Some? && r.sessionId == partition
            && PutRows(rows, partition, more).value == PutRows(rows, partition, front).value[r.key := StoredRow(partition, r)]
  {
    hide PutRow;
    PutRowStores(PutRows(rows, partition, more[..|more| - 1]).value, partition, more[|more| - 1]);
  }

  lemma {:induction false} PutStoresEach(rows: map<Text, StoredRow>, partition: Text, more: seq<Row>)
    requires DistinctKeys(more) && PutRows(rows, partition, more).Some?
    ensures var now := PutRows(rows, partition, more).value;
            forall i :: 0 <= i < |more| ==> more[i].sessionId == partition && more[i].key in now && now[more[i].key] == StoredRow(partition, more[i])
    decreases |more|
  {
    if more != [] {
      PutRowsStep(rows, partition, more);
      hide PutRows;
      PutStoresEach(rows, partition, more[..|more| - 1]);
    }
  }

  lemma {:induction false} PutStoresOnly(rows: map<Text, StoredRow>, partition: Text, more: seq<Row>)
    requires PutRows(rows, partition, more).Some?
    ensures var now := PutRows(rows, partition, more).value;
            && (forall key <- now :: (key in rows && now[key] == rows[key]) || ListedAt(more, key))
            && (forall key <- rows :: key in now)
    decreases |more|
  {
    if more != [] {
      PutRowsStep(rows, partition, more);
      PutStoresOnly(rows, partition, more[..|more| - 1]);
      hide PutRows, ListedAt;
      forall key
        ensures ListedAt(more[..|more| - 1], key) || key == more[|more| - 1].key ==> ListedAt(more, key)
      {
        ListedOneMore(more, key);
      }
    }
  }

  /**
   Replacing a partition by rows with keys of their own is accepted exactly when the message is
   within bounds, each row is valid for the partition, no key belongs to another partition and
   no sequence number occurs twice. What the partition held before plays no part.
   */
  lemma ReplaceExactly(st: Store, partition: Text, source: Source, rows: seq<Row>, size: RowSize)
    requires StoreInv(st) && DistinctKeys(rows)
    ensures Mutate(st, Replace(partition, source, rows), size).answer.Ok? <==>
              && ValidMutation(Replace(partition, source, rows), size)
              && Fitting(WithoutPartition(st.rows, partition), partition, rows)
              && source.cursor <= MAX_SQLITE_INTEGER && source.lagMs <= MAX_SQLITE_INTEGER && st.meta.generation < MAX_SQLITE_INTEGER
  {
    RowsAreGood(st);
    SubsetIsGood(st.rows, WithoutPartition(st.rows, partition));
    PutRowsExactly(WithoutPartition(st.rows, partition), partition, rows);
    AnswersOk(st, Replace(partition, source, rows), size);
    hide GoodRows, PutRows, Fitting, StoreInv, ValidMutation, Mutate;
  }

  lemma AnswersOk(st: Store, m: Mutation, size: RowSize)
    ensures Mutate(st, m, size).answer.Ok? <==>
              ValidMutation(m, size) && HandleMutation(st, m).Ok? && (m.Delete? || m.source.cursor <= MAX_SQLITE_INTEGER)
              && m.Lag() <= MAX_SQLITE_INTEGER && st.meta.generation < MAX_SQLITE_INTEGER
  {
    hide ValidMutation, HandleMutation;
  }

  // ---------- Exactly when a delta is accepted ----------

  /** The stored row of this key outlives the deletes of the delta. */
  predicate Outlives(st: Store, m: Mutation, key: Text)
    requires m.Delta?
  {
    key in st.rows && !(key in m.deletes && st.rows[key].partition == m.partition)
  }

  /** One of the upserts from..until has this key. */
  predicate GivenBetween(upserts: seq<Row>, from: nat, until: nat, key: Text)
    requires until <= |upserts|
  {
    exists l :: from <= l < until && upserts[l].key == key
  }

  /**
   Upsert i has a place when its turn comes: it is valid for the partition, its key is no other
   partition's, and its sequence number is held by no other key, neither by a stored row that is not
   deleted nor given anew before, nor by an earlier upsert that is not given anew before.
   */
  ghost predicate UpsertFits(st: Store, m: Mutation, i: nat)
    requires m.Delta? && i < |m.upserts|
  {
    var u := m.upserts[i];
    && ValidRow(u, m.partition)
    && (u.key in st.rows ==> st.rows[u.key].partition == m.partition)
    && (forall key :: Outlives(st, m, key) && key != u.key && st.rows[key].partition == m.partition && st.rows[key].row.seqNo == u.seqNo
                      ==> GivenBetween(m.upserts, 0, i, key))
    && (forall j :: 0 <= j < i && m.upserts[j].key != u.key && m.upserts[j].seqNo == u.seqNo
                    ==> GivenBetween(m.upserts, j + 1, i, m.upserts[j].key))
  }

  /** The newest row of a key is the last one given for it. */
  lemma {:induction false} NewestIsLast(more: seq<Row>, key: Text) returns (j: nat)
    requires Newest(more, key).Some?
    ensures j < |more| && more[j] == Newest(more, key).value && more[j].key == key
    ensures forall l :: j < l < |more| ==> more[l].key != key
    decreases |more|
  {
    if more[|more| - 1].key == key {
      j := |more| - 1;
    } else {
      j := NewestIsLast(more[..|more| - 1], key);
    }
  }

  lemma {:induction false} LastIsNewest(more: seq<Row>, j: nat)
    requires j < |more| && forall l :: j < l < |more| ==> more[l].key != more[j].key
    ensures Newest(more, more[j].key) == Some(more[j])
    decreases |more|
  {
    if j < |more| - 1 {
      LastIsNewest(more[..|more| - 1], j);
    }
  }

  /** The rows after the deletes and the first i upserts, as PutRowsMeaning describes them. */
  ghost predicate AfterUpserts(st: Store, m: Mutation, i: nat, now: map<Text, StoredRow>)
    requires m.Delta? && i <= |m.upserts|
  {
    forall key :: At(now, key) == match Newest(m.upserts[..i], key)
                                  case Some(r) => Some(StoredRow(m.partition, r))
                                  case None => if Outlives(st, m, key) then Some(st.rows[key]) else None
  }

  lemma SurvivorIsThere(st: Store, m: Mutation, i: nat, now: map<Text, StoredRow>, key: Text)
    requires m.Delta? && i <= |m.upserts| && AfterUpserts(st, m, i, now) && Outlives(st, m, key)
    ensures Newest(m.upserts[..i], key).Some? || (key in now && now[key] == st.rows[key])
  {
    assert Newest(m.upserts[..i], key).None? ==> At(now, key) == Some(st.rows[key]);
  }

  lemma NewestIsThere(st: Store, m: Mutation, i: nat, now: map<Text, StoredRow>, key: Text)
    requires m.Delta? && i <= |m.upserts| && AfterUpserts(st, m, i, now) && Newest(m.upserts[..i], key).Some?
    ensures key in now && now[key].row == Newest(m.upserts[..i], key).value
  {
    assert At(now, key) == Some(StoredRow(m.partition, Newest(m.upserts[..i], key).value));
  }

  /** A coordinate taken at the turn of upsert i is one of the two cases of UpsertFits. */
  lemma TakenIsNoFit(st: Store, m: Mutation, i: nat, now: map<Text, StoredRow>)
    requires GoodRows(st.rows) && m.Delta? && i < |m.upserts| && AfterUpserts(st, m, i, now)
    requires (forall j :: 0 <= j < i ==> m.upserts[j].sessionId == m.partition) && m.upserts[i].sessionId == m.partition
    requires CoordinateTaken(now, m.upserts[i])
    ensures !UpsertFits(st, m, i)
  {
    var u, given := m.upserts[i], m.upserts[..i];
    var key :| key in now && key != u.key && now[key].row.sessionId == u.sessionId && now[key].row.seqNo == u.seqNo;
    assert At(now, key) == Some(now[key]);
    if Newest(given, key).Some? {
      var j := NewestIsLast(given, key);
      assert m.upserts[j] == given[j];
      assert forall l :: j < l < i ==> m.upserts[l] == given[l];
      assert !GivenBetween(m.upserts, j + 1, i, m.upserts[j].key);
    } else {
      assert Outlives(st, m, key) && now[key] == st.rows[key];
      assert forall l :: 0 <= l < i ==> m.upserts[l] in given;
      assert !GivenBetween(m.upserts, 0, i, key);
    }
  }

  /** A valid upsert that has no place at its turn finds its key with another partition or its coordinate taken. */
  lemma NoFitIsTaken(st: Store, m: Mutation, i: nat, now: map<Text, StoredRow>)
    requires GoodRows(st.rows) && m.Delta? && i < |m.upserts| && AfterUpserts(st, m, i, now)
    requires forall j :: 0 <= j < i ==> m.upserts[j].sessionId == m.partition
    requires ValidRow(m.upserts[i], m.partition) && !CoordinateTaken(now, m.upserts[i])
    requires m.upserts[i].key in st.rows ==> st.rows[m.upserts[i].key].partition == m.partition
    ensures UpsertFits(st, m, i)
  {
    var u, given := m.upserts[i], m.upserts[..i];
    forall key | Outlives(st, m, key) && key != u.key && st.rows[key].partition == m.partition && st.rows[key].row.seqNo == u.seqNo
      ensures GivenBetween(m.upserts, 0, i, key)
    {
      SurvivorIsThere(st, m, i, now, key);
      if Newest(given, key).Some? {
        var j := NewestIsLast(given, key);
        assert m.upserts[j] == given[j];
      }
    }
    forall j | 0 <= j < i && m.upserts[j].key != u.key && m.upserts[j].seqNo == u.seqNo
      ensures GivenBetween(m.upserts, j + 1, i, m.upserts[j].key)
    {
      if !GivenBetween(m.upserts, j + 1, i, m.upserts[j].key) {
        assert forall l :: 0 <= l < i ==> given[l] == m.upserts[l];
        LastIsNewest(given, j);
        NewestIsThere(st, m, i, now, m.upserts[j].key);
      }
    }
  }

  lemma UpsertsPlaced(st: Store, m: Mutation, i: nat)
    requires GoodRows(st.rows) && m.Delta? && i <= |m.upserts|
    requires PutRows(WithoutKeys(st.rows, m.partition, m.deletes), m.partition, m.upserts[..i]).Some?
    ensures AfterUpserts(st, m, i, PutRows(WithoutKeys(st.rows, m.partition, m.deletes), m.partition, m.upserts[..i]).value)
    ensures forall j :: 0 <= j < i ==> m.upserts[j].sessionId == m.partition
    ensures forall key :: Newest(m.upserts[..i], key).Some? && Outlives(st, m, key) ==> st.rows[key].partition == m.partition
  {
    var start := WithoutKeys(st.rows, m.partition, m.deletes);
    SubsetIsGood(st.rows, start);
    PutRowsMeaning(start, m.partition, m.upserts[..i]);
    hide GoodRows, PutRows;
    forall j | 0 <= j < i
      ensures m.upserts[j].sessionId == m.partition
    {
      assert m.upserts[..i][j] in m.upserts[..i];
    }
  }

  lemma {:induction false} UpsertsExactly(st: Store, m: Mutation, n: nat)
    requires GoodRows(st.rows) && m.Delta? && n <= |m.upserts|
    ensures PutRows(WithoutKeys(st.rows, m.partition, m.deletes), m.partition, m.upserts[..n]).Some?
            <==> forall i :: 0 <= i < n ==> UpsertFits(st, m, i)
    decreases n
  {
    if n > 0 {
      var start := WithoutKeys(st.rows, m.partition, m.deletes);
      UpsertsExactly(st, m, n - 1);
      assert m.upserts[..n][..n - 1] == m.upserts[..n - 1];
      if PutRows(start, m.partition, m.upserts[..n - 1]).Some? {
        OneUpsertExactly(st, m, n - 1, PutRows(start, m.partition, m.upserts[..n - 1]).value);
      }
      hide UpsertFits, PutRow;
    }
  }

  lemma OneUpsertExactly(st: Store, m: Mutation, i: nat, now: map<Text, StoredRow>)
    requires GoodRows(st.rows) && m.Delta? && i < |m.upserts|
    requires PutRows(WithoutKeys(st.rows, m.partition, m.deletes), m.partition, m.upserts[..i]) == Some(now)
    ensures PutRow(now, m.partition, m.upserts[i]).Some? <==> UpsertFits(st, m, i)
  {
    var u := m.upserts[i];
    UpsertsPlaced(st, m, i);
    ForeignOrOwn(st, m, i, now);
    hide PutRows, AfterUpserts, GoodRows;
    if ValidRow(u, m.partition) {
      if CoordinateTaken(now, u) {
        TakenIsNoFit(st, m, i, now);
      } else if u.key in st.rows ==> st.rows[u.key].partition == m.partition {
        NoFitIsTaken(st, m, i, now);
      }
    }
  }

  /** At the turn of upsert i its key is another partition's exactly when it was before the delta. */
  lemma ForeignOrOwn(st: Store, m: Mutation, i: nat, now: map<Text, StoredRow>)
    requires m.Delta? && i < |m.upserts| && AfterUpserts(st, m, i, now)
    requires forall key :: Newest(m.upserts[..i], key).Some? && Outlives(st, m, key) ==> st.rows[key].partition == m.partition
    ensures var key := m.upserts[i].key;
            (key in now ==> now[key].partition == m.partition) <==> (key in st.rows ==> st.rows[key].partition == m.partition)
  {
    var key := m.upserts[i].key;
    assert At(now, key) == match Newest(m.upserts[..i], key)
                           case Some(r) => Some(StoredRow(m.partition, r))
                           case None => if Outlives(st, m, key) then Some(st.rows[key]) else None;
    hide Newest;
  }

  /**
   A delta is accepted exactly when it is within bounds, sits at the expected place of the same
   source without moving it back, and each of its upserts has a place when its turn comes.
   */
  lemma DeltaExactly(st: Store, m: Mutation, size: RowSize)
    requires StoreInv(st) && m.Delta?
    ensures Mutate(st, m, size).answer.Ok? <==>
              && ValidMutation(m, size)
              && m.partition in st.partitions && st.partitions[m.partition].identity == m.source.identity
              && st.partitions[m.partition].cursor == m.expectedCursor <= m.source.cursor
              && (forall i :: 0 <= i < |m.upserts| ==> UpsertFits(st, m, i))
              && m.source.cursor <= MAX_SQLITE_INTEGER && m.source.lagMs <= MAX_SQLITE_INTEGER && st.meta.generation < MAX_SQLITE_INTEGER
  {
    RowsAreGood(st);
    UpsertsExactly(st, m, |m.upserts|);
    assert m.upserts[..|m.upserts|] == m.upserts;
    AnswersOk(st, m, size);
    hide GoodRows, PutRows, UpsertFits, StoreInv, ValidMutation, Mutate, WithoutKeys;
  }

  /**
   The order of upserts matters: two rows that trade places are refused as a delta, although
   replacing the partition by the very same two rows would be accepted.
   */
  lemma TradingPlacesIsRefused(st: Store, a: Row, b: Row, source: Source, cursor: nat, size: RowSize)
    requires StoreInv(st) && a.key != b.key && a.sessionId == b.sessionId && a.seqNo != b.seqNo
    requires a.key in st.rows && st.rows[a.key].row == a && b.key in st.rows && st.rows[b.key].row == b
    ensures var traded := [a.(seqNo := b.seqNo), b.(seqNo := a.seqNo)];
            Mutate(st, Delta(a.sessionId, cursor, source, traded, []), size).answer.Err?
            && Fitting(WithoutPartition(st.rows, a.sessionId), a.sessionId, traded)
  {
    var traded := [a.(seqNo := b.seqNo), b.(seqNo := a.seqNo)];
    var m := Delta(a.sessionId, cursor, source, traded, []);
    DeltaExactly(st, m, size);
    assert RowAt(st, a.key) && RowAt(st, b.key);
    assert Outlives(st, m, b.key) && !GivenBetween(traded, 0, 0, b.key);
    hide Mutate;
    assert !UpsertFits(st, m, 0);
  }

  // ---------- Rebuilding from nothing ----------

  /** The rows of the partitions named in ps. */
  function RowsOf(rows: map<Text, StoredRow>, ps: seq<Text>): map<Text, StoredRow> {
    map key <- rows | rows[key].partition in ps :: rows[key]
  }

  /** One replacement a partition, from the listing and the checkpoint that the store has of it. */
  function Rebuilding(st: Store, ps: seq<Text>, listings: map<Text, seq<Row>>, fence: Text, lagMs: nat): seq<Call>
    requires forall p <- ps :: p in st.partitions && p in listings
    decreases |ps|
  {
    if ps == [] then []
    else
      var p := ps[|ps| - 1];
      Rebuilding(st, ps[..|ps| - 1], listings, fence, lagMs) + [Mutating(Rebuilder(st, p, listings[p], fence, lagMs))]
  }

  /** The same partitions at the same place in their sources; the stamps are the rebuild's own. */
  ghost predicate SamePlaces(a: map<Text, Checkpoint>, b: map<Text, Checkpoint>, ps: seq<Text>) {
    forall p :: (p in b <==> p in ps) && (p in ps ==> p in a && b[p].(generation := a[p].generation) == a[p])
  }

  lemma RowsOfOneMore(rows: map<Text, StoredRow>, ps: seq<Text>, p: Text, listing: seq<Row>)
    requires GoodRows(rows) && Lists(rows, p, listing) && p !in ps
    ensures PutRows(WithoutPartition(RowsOf(rows, ps), p), p, listing) == Some(RowsOf(rows, ps + [p]))
  {
    var part, all := WithoutPartition(RowsOf(rows, ps), p), RowsOf(rows, ps + [p]);
    ListedStill(rows, ps, p, listing);
    hide Lists, GoodRows, PutRows;
    RowsOfIsSubset(rows, ps + [p]);
    RowsOfSplit(rows, ps, p);
    ListingRestores(part, all, p, listing);
  }

  lemma RowsOfIsSubset(rows: map<Text, StoredRow>, ps: seq<Text>)
    requires GoodRows(rows)
    ensures GoodRows(RowsOf(rows, ps))
  {
    hide GoodRows;
    SubsetIsGood(rows, RowsOf(rows, ps));
  }

  lemma RowsOfSplit(rows: map<Text, StoredRow>, ps: seq<Text>, p: Text)
    requires p !in ps
    ensures WithoutPartition(RowsOf(rows, ps), p) == WithoutPartition(RowsOf(rows, ps + [p]), p)
  {
  }

  lemma ListedStill(rows: map<Text, StoredRow>, ps: seq<Text>, p: Text, listing: seq<Row>)
    requires Lists(rows, p, listing)
    ensures Lists(RowsOf(rows, ps + [p]), p, listing)
  {
  }

  ghost predicate Rebuildable(st: Store, ps: seq<Text>, listings: map<Text, seq<Row>>, size: RowSize, fence: Text, lagMs: nat) {
    && TextWithin(fence, 1, MAX_TEXT_BYTES) && lagMs <= MAX_SQLITE_INTEGER
    && (forall p <- ps :: p in st.partitions && p in listings && Lists(st.rows, p, listings[p]) && ValidRows(listings[p], size))
    && (forall i, j :: 0 <= i < j < |ps| ==> ps[i] != ps[j])
  }

  function Rebuilder(st: Store, p: Text, listing: seq<Row>, fence: Text, lagMs: nat): Mutation
    requires p in st.partitions
  {
    var at := st.partitions[p];
    Replace(p, Source(at.identity, at.revision, at.cursor, fence, lagMs), listing)
  }

  lemma RebuildingStep(st: Store, ps: seq<Text>, listings: map<Text, seq<Row>>, size: RowSize, fence: Text, lagMs: nat)
    requires ps != [] && forall p <- ps :: p in st.partitions && p in listings
    ensures var front, p := ps[..|ps| - 1], ps[|ps| - 1];
            AnswerAll(CREATED, Rebuilding(st, ps, listings, fence, lagMs), size)
            == Mutate(AnswerAll(CREATED, Rebuilding(st, front, listings, fence, lagMs), size), Rebuilder(st, p, listings[p], fence, lagMs), size).store
  {
    hide Mutate;
    var calls := Rebuilding(st, ps, listings, fence, lagMs);
    assert calls[..|calls| - 1] == Rebuilding(st, ps[..|ps| - 1], listings, fence, lagMs);
  }

  lemma RebuildableLast(st: Store, ps: seq<Text>, listings: map<Text, seq<Row>>, size: RowSize, fence: Text, lagMs: nat)
    requires StoreInv(st) && ps != [] && Rebuildable(st, ps, listings, size, fence, lagMs)
    ensures var front, p := ps[..|ps| - 1], ps[|ps| - 1];
            && Rebuildable(st, front, listings, size, fence, lagMs)
            && p in st.partitions && p !in front && p in listings && front + [p] == ps
            && st.partitions[p].cursor <= MAX_SQLITE_INTEGER && lagMs <= MAX_SQLITE_INTEGER && |front| < MAX_SQLITE_INTEGER
            && Lists(st.rows, p, listings[p]) && ValidRows(listings[p], size)
            && ValidSource(p, Source(st.partitions[p].identity, st.partitions[p].revision, 0, fence, 0))
  {
    hide RowsInv, Lists, ValidRows;
    assert ValidPlace(ps[|ps| - 1], st.partitions[ps[|ps| - 1]]);
    DistinctWithin(ps, st.partitions.Keys);
    NoMorePartitionsThanGenerations(st);
    assert |st.partitions.Keys| == |st.partitions|;
  }

  lemma {:induction false} DistinctWithin(ps: seq<Text>, all: set<Text>)
    requires (forall p <- ps :: p in all) && forall i, j :: 0 <= i < j < |ps| ==> ps[i] != ps[j]
    ensures |ps| <= |all|
    decreases |ps|
  {
    if ps != [] {
      var last := ps[|ps| - 1];
      DistinctWithin(ps[..|ps| - 1], all - {last});
    }
  }

  lemma {:induction false} RebuildPrefix(st: Store, ps: seq<Text>, listings: map<Text, seq<Row>>, size: RowSize, fence: Text, lagMs: nat)
    requires StoreInv(st) && Rebuildable(st, ps, listings, size, fence, lagMs)
    ensures var built := AnswerAll(CREATED, Rebuilding(st, ps, listings, fence, lagMs), size);
            built.rows == RowsOf(st.rows, ps) && SamePlaces(st.partitions, built.partitions, ps) && built.meta.generation == |ps|
    decreases |ps|
  {
    if ps != [] {
      RowsAreGood(st);
      hide StoreInv, Rebuildable, Lists, ValidRows, ValidSource, SamePlaces, PutRows, RowsOf, WithoutPartition, Mutate, GoodRows, AnswerAll, Rebuilding;
      var front, p := ps[..|ps| - 1], ps[|ps| - 1];
      RebuildableLast(st, ps, listings, size, fence, lagMs);
      RebuildPrefix(st, front, listings, size, fence, lagMs);
      RowsOfOneMore(st.rows, front, p, listings[p]);
      RebuildStep(st, AnswerAll(CREATED, Rebuilding(st, front, listings, fence, lagMs), size), front, p, listings[p], size, fence, lagMs);
      RebuildableParts(st, ps, listings, size, fence, lagMs);
      RebuildingStep(st, ps, listings, size, fence, lagMs);
    } else {
      NothingRebuilt(st, ps, listings, size, fence, lagMs);
    }
  }

  lemma RebuildableParts(st: Store, ps: seq<Text>, listings: map<Text, seq<Row>>, size: RowSize, fence: Text, lagMs: nat)
    requires Rebuildable(st, ps, listings, size, fence, lagMs)
    ensures forall p <- ps :: p in st.partitions && p in listings
  {
  }

  lemma NothingRebuilt(st: Store, ps: seq<Text>, listings: map<Text, seq<Row>>, size: RowSize, fence: Text, lagMs: nat)
    requires ps == []
    ensures var built := AnswerAll(CREATED, Rebuilding(st, ps, listings, fence, lagMs), size);
            built.rows == RowsOf(st.rows, ps) && SamePlaces(st.partitions, built.partitions, ps) && built.meta.generation == 0
  {
  }

  lemma RebuildStep(st: Store, before: Store, ps: seq<Text>, p: Text, listing: seq<Row>, size: RowSize, fence: Text, lagMs: nat)
    requires p in st.partitions && p !in ps && SamePlaces(st.partitions, before.partitions, ps) && before.meta.generation == |ps| < MAX_SQLITE_INTEGER
    requires PutRows(WithoutPartition(before.rows, p), p, listing) == Some(RowsOf(st.rows, ps + [p]))
    requires st.partitions[p].cursor <= MAX_SQLITE_INTEGER && lagMs <= MAX_SQLITE_INTEGER && ValidRows(listing, size)
    requires ValidSource(p, Source(st.partitions[p].identity, st.partitions[p].revision, 0, fence, 0))
    ensures var built := Mutate(before, Rebuilder(st, p, listing, fence, lagMs), size).store;
            built.rows == RowsOf(st.rows, ps + [p]) && SamePlaces(st.partitions, built.partitions, ps + [p]) && built.meta.generation == |ps| + 1
  {
    hide PutRows, WithoutPartition, RowsOf;
  }

  /**
   Whatever history led to a view, one replacement a partition, in any order of partitions and
   of rows, builds the same rows and the same places in the sources from an empty store.
   */
  lemma RebuildEqualsHistory(calls: seq<Call>, size: RowSize, ps: seq<Text>, listings: map<Text, seq<Row>>, fence: Text, lagMs: nat)
    requires var st := AnswerAll(CREATED, calls, size);
             Rebuildable(st, ps, listings, size, fence, lagMs) && forall p <- st.partitions :: p in ps
    ensures var st := AnswerAll(CREATED, calls, size);
            var built := AnswerAll(CREATED, Rebuilding(st, ps, listings, fence, lagMs), size);
            built.rows == st.rows && built.partitions.Keys == st.partitions.Keys
            && forall p <- st.partitions :: built.partitions[p].(generation := st.partitions[p].generation) == st.partitions[p]
  {
    var st := AnswerAll(CREATED, calls, size);
    EveryHistoryKeepsInv(calls, size);
    RebuildPrefix(st, ps, listings, size, fence, lagMs);
    hide AnswerAll, Rebuilding, StampsInv, Lists, ValidRows, ValidSource;
    AllRowsCovered(st, ps);
  }

  lemma AllRowsCovered(st: Store, ps: seq<Text>)
    requires RowsInv(st) && forall p <- st.partitions :: p in ps
    ensures RowsOf(st.rows, ps) == st.rows
  {
    hide ValidRow, DistinctCoordinates;
    assert forall key <- st.rows :: RowAt(st, key);
  }
}
