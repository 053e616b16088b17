/**
 How a log is cut into bounded batches: the loop of chunkDocuments, the greedy cut it
 computes, and exactly when that cut keeps its byte limit.
 */
module Chunking {
  import opened Wrappers
  import opened Ingest

  type Measure = Document -> nat

  // ---------- Cutting a log into chunks ----------

  function Joined<T>(chunks: seq<seq<T>>): seq<T>
    decreases |chunks|
  {
    if chunks == [] then [] else Joined(chunks[..|chunks| - 1]) + chunks[|chunks| - 1]
  }

  /** The measured payload of a chunk: two bytes for the brackets, one separator a document. */
  function Payload(chunk: seq<Document>, size: Measure): nat
    decreases |chunk|
  {
    if chunk == [] then 2 else Payload(chunk[..|chunk| - 1], size) + size(chunk[|chunk| - 1]) + 1
  }

  predicate Full(chunk: seq<Document>, d: Document, size: Measure, maxDocuments: nat, maxBytes: nat) {
    |chunk| >= maxDocuments || Payload(chunk, size) + size(d) + 1 > maxBytes
  }

  /** A chunk ends only where the next document would not have fitted. */
  ghost predicate CutWhereFull(chunks: seq<seq<Document>>, size: Measure, maxDocuments: nat, maxBytes: nat) {
    && (forall j :: 1 <= j < |chunks| ==> chunks[j] != [] && Full(chunks[j - 1], chunks[j][0], size, maxDocuments, maxBytes))
    && (forall i :: 0 <= i < |chunks| ==> WithinLimits(chunks[i], size, maxDocuments, maxBytes))
    && (|chunks| == 1 ==> chunks[0] != [])
    && (chunks != [] && chunks[0] != [] ==> !Full([], chunks[0][0], size, maxDocuments, maxBytes))
  }

  /** A chunk of one document may pass the byte limit, by the two bytes of the brackets at most. */
  ghost predicate WithinLimits(chunk: seq<Document>, size: Measure, maxDocuments: nat, maxBytes: nat) {
    && |chunk| <= maxDocuments
    && (|chunk| == 1 ==> Payload(chunk, size) <= maxBytes + 2)
    && (|chunk| >= 2 ==> Payload(chunk, size) <= maxBytes)
  }

  /** The greedy cut of docs: a concatenation of chunks that end only where they are full. */
  ghost predicate GreedyCut(docs: seq<Document>, chunks: seq<seq<Document>>, size: Measure, maxDocuments: nat, maxBytes: nat) {
    Joined(chunks) == docs && CutWhereFull(chunks, size, maxDocuments, maxBytes)
  }

  /** Some document alone exceeds the byte limit. */
  ghost predicate Oversize(docs: seq<Document>, size: Measure, maxBytes: nat) {
    exists d <- docs :: size(d) + 1 > maxBytes
  }

  /** The loop of chunkDocuments; the chunk still being filled is the last element of the cut so far. */
  method ChunkDocuments(docs: seq<Document>, size: Measure, maxDocuments: nat, maxBytes: nat)
    returns (r: Result<seq<seq<Document>>, Document>)
    requires maxDocuments >= 1
    ensures r.Err? <==> Oversize(docs, size, maxBytes)
    ensures r.Err? ==> r.error in docs && size(r.error) + 1 > maxBytes
    ensures r.Ok? ==> GreedyCut(docs, r.value, size, maxDocuments, maxBytes)
  {
    hide CutWhereFull, Joined, Payload;
    var chunks: seq<seq<Document>> := [];
    var current: seq<Document> := [];
    var currentBytes := 2;
    NothingCut(docs, size);
    for n := 0 to |docs|
      invariant currentBytes == Payload(current, size)
      invariant Joined(chunks) + current == docs[..n]
      invariant n == 0 ==> chunks == []
      invariant n > 0 ==> current != [] && CutWhereFull(chunks + [current], size, maxDocuments, maxBytes)
      invariant forall k :: 0 <= k < n ==> size(docs[k]) + 1 <= maxBytes
    {
      var d := docs[n];
      var bytes := size(d) + 1;
      if bytes > maxBytes {
        return Err(d);
      }
      if |current| >= maxDocuments || currentBytes + bytes > maxBytes {
        ChunkCloses(chunks, current, d, size, maxDocuments, maxBytes);
        chunks := chunks + [current];
        current := [];
        currentBytes := 2;
        assert current + [d] == [d];
      } else {
        ChunkGrows(chunks, current, d, size, maxDocuments, maxBytes);
      }
      current := current + [d];
      currentBytes := currentBytes + bytes;
      assert docs[..n + 1] == docs[..n] + [d];
    }
    assert docs[..|docs|] == docs;
    if |current| > 0 {
      JoinedAppend(chunks, current);
      chunks := chunks + [current];
    } else {
      assert docs == [];
      NoCutOfNothing(size, maxDocuments, maxBytes);
    }
    return Ok(chunks);
  }

  lemma NothingCut(docs: seq<Document>, size: Measure)
    ensures Joined<Document>([]) == docs[..0] && Payload([], size) == 2
  {
  }

  lemma NoCutOfNothing(size: Measure, maxDocuments: nat, maxBytes: nat)
    ensures GreedyCut([], [], size, maxDocuments, maxBytes)
  {
  }

  lemma JoinedAppend<T>(chunks: seq<seq<T>>, chunk: seq<T>)
    ensures Joined(chunks + [chunk]) == Joined(chunks) + chunk
  {
    assert (chunks + [chunk])[..|chunks|] == chunks;
  }

  lemma PayloadAppend(chunk: seq<Document>, d: Document, size: Measure)
    ensures Payload(chunk + [d], size) == Payload(chunk, size) + size(d) + 1
  {
    assert (chunk + [d])[..|chunk|] == chunk;
  }

  lemma ChunkGrows(chunks: seq<seq<Document>>, current: seq<Document>, d: Document, size: Measure, maxDocuments: nat, maxBytes: nat)
    requires !Full(current, d, size, maxDocuments, maxBytes)
    requires current == [] ==> chunks == []
    requires current != [] ==> CutWhereFull(chunks + [current], size, maxDocuments, maxBytes)
    ensures Payload(current + [d], size) == Payload(current, size) + size(d) + 1
    ensures CutWhereFull(chunks + [current + [d]], size, maxDocuments, maxBytes)
  {
    PayloadAppend(current, d, size);
    if current != [] {
      var before, after := chunks + [current], chunks + [current + [d]];
      assert WithinLimits(before[|chunks|], size, maxDocuments, maxBytes);
      forall j | 1 <= j < |after|
        ensures after[j] != [] && Full(after[j - 1], after[j][0], size, maxDocuments, maxBytes)
      {
        assert before[j] != [] && Full(before[j - 1], before[j][0], size, maxDocuments, maxBytes);
      }
      forall i | 0 <= i < |chunks|
        ensures WithinLimits(after[i], size, maxDocuments, maxBytes)
      {
        assert WithinLimits(before[i], size, maxDocuments, maxBytes);
      }
      assert before[0] != [] ==> after[0][0] == before[0][0];
    }
  }

  lemma ChunkCloses(chunks: seq<seq<Document>>, current: seq<Document>, d: Document, size: Measure, maxDocuments: nat, maxBytes: nat)
    requires Full(current, d, size, maxDocuments, maxBytes) && size(d) + 1 <= maxBytes && maxDocuments >= 1
    requires current == [] ==> chunks == []
    requires current != [] ==> CutWhereFull(chunks + [current], size, maxDocuments, maxBytes)
    ensures Joined(chunks + [current]) == Joined(chunks) + current
    ensures Payload([d], size) == size(d) + 3
    ensures CutWhereFull(chunks + [current] + [[d]], size, maxDocuments, maxBytes)
  {
    JoinedAppend(chunks, current);
    assert [d] == [] + [d];
    PayloadAppend([], d, size);
    var before, after := chunks + [current], chunks + [current] + [[d]];
    if current != [] {
      assert forall i :: 0 <= i < |before| ==> after[i] == before[i] && WithinLimits(before[i], size, maxDocuments, maxBytes);
    }
  }

  // ---------- What the cut means ----------

  /** No chunk is empty and every chunk is within both limits. */
  ghost predicate CleanCut(chunks: seq<seq<Document>>, size: Measure, maxDocuments: nat, maxBytes: nat) {
    forall i :: 0 <= i < |chunks| ==> 1 <= |chunks[i]| <= maxDocuments && Payload(chunks[i], size) <= maxBytes
  }

  ghost predicate RoomForEach(docs: seq<Document>, size: Measure, maxBytes: nat) {
    forall d <- docs :: size(d) + 3 <= maxBytes
  }

  lemma {:induction false} ChunksOfJoined<T>(chunks: seq<seq<T>>, i: nat, k: nat)
    requires i < |chunks| && k < |chunks[i]|
    ensures chunks[i][k] in Joined(chunks)
    decreases |chunks|
  {
    if i < |chunks| - 1 {
      ChunksOfJoined(chunks[..|chunks| - 1], i, k);
    }
  }

  lemma {:induction false} MembersOfJoined<T>(chunks: seq<seq<T>>, d: T) returns (i: nat)
    requires d in Joined(chunks)
    ensures i < |chunks| && d in chunks[i]
    decreases |chunks|
  {
    if d in chunks[|chunks| - 1] {
      i := |chunks| - 1;
    } else {
      i := MembersOfJoined(chunks[..|chunks| - 1], d);
    }
  }

  lemma {:induction false} PayloadOfMember(chunk: seq<Document>, d: Document, size: Measure)
    requires d in chunk
    ensures Payload(chunk, size) >= size(d) + 3
    decreases |chunk|
  {
    if d in chunk[..|chunk| - 1] {
      PayloadOfMember(chunk[..|chunk| - 1], d, size);
    } else {
      AtLeastBrackets(chunk[..|chunk| - 1], size);
    }
  }

  lemma AtLeastBrackets(chunk: seq<Document>, size: Measure)
    ensures Payload(chunk, size) >= 2
    decreases |chunk|
  {
  }

  /**
   The byte limit is kept, and no chunk is empty, exactly when every document leaves room
   for the two brackets and its separator.
   */
  lemma CleanCutExactly(docs: seq<Document>, chunks: seq<seq<Document>>, size: Measure, maxDocuments: nat, maxBytes: nat)
    requires maxDocuments >= 1 && GreedyCut(docs, chunks, size, maxDocuments, maxBytes)
    ensures CleanCut(chunks, size, maxDocuments, maxBytes) <==> RoomForEach(docs, size, maxBytes)
  {
    if RoomForEach(docs, size, maxBytes) && docs == [] {
      NoChunks(chunks, size, maxDocuments, maxBytes);
    } else if RoomForEach(docs, size, maxBytes) {
      NonEmptyPart(docs, chunks, size, maxDocuments, maxBytes);
      assert docs[0] in docs;
      forall i | 0 <= i < |chunks|
        ensures 1 <= |chunks[i]| <= maxDocuments && Payload(chunks[i], size) <= maxBytes
      {
        assert WithinLimits(chunks[i], size, maxDocuments, maxBytes);
        if |chunks[i]| == 1 {
          ChunksOfJoined(chunks, i, 0);
          PayloadAppend([], chunks[i][0], size);
          assert chunks[i] == [] + [chunks[i][0]];
        }
      }
    }
    if CleanCut(chunks, size, maxDocuments, maxBytes) {
      forall d <- docs
        ensures size(d) + 3 <= maxBytes
      {
        var i := MembersOfJoined(chunks, d);
        PayloadOfMember(chunks[i], d, size);
      }
    }
  }

  /** A document of exactly maxBytes - 1 bytes is accepted, after an empty chunk and over the limit. */
  lemma TightDocument(d: Document, maxDocuments: nat)
    requires maxDocuments >= 1
    ensures var size: Measure := (_: Document) => 1023;
            !Oversize([d], size, 1024) && GreedyCut([d], [[], [d]], size, maxDocuments, 1024)
            && !CleanCut([[], [d]], size, maxDocuments, 1024)
  {
    var size: Measure := (_: Document) => 1023;
    JoinedAppend([[]], [d]);
    assert [[]] + [[d]] == [[], [d]];
    assert Joined<Document>([[]]) == [];
    PayloadAppend([], d, size);
    assert [] + [d] == [d];
    assert [[], [d]][0] == [];
  }

  lemma {:induction false} PayloadGrows(chunk: seq<Document>, n: nat, size: Measure)
    requires n < |chunk|
    ensures Payload(chunk[..n], size) + size(chunk[n]) + 1 <= Payload(chunk, size)
    decreases |chunk|
  {
    var front := chunk[..|chunk| - 1];
    if n < |front| {
      PayloadGrows(front, n, size);
      assert front[..n] == chunk[..n];
    }
  }

  /** A chunk that takes a document in its stride was not full before it. */
  lemma NotFullInside(chunk: seq<Document>, n: nat, size: Measure, maxDocuments: nat, maxBytes: nat)
    requires WithinLimits(chunk, size, maxDocuments, maxBytes) && 0 < n < |chunk|
    ensures !Full(chunk[..n], chunk[n], size, maxDocuments, maxBytes)
  {
    PayloadGrows(chunk, n, size);
  }

  lemma {:induction false} JoinedFromFront<T>(chunks: seq<seq<T>>)
    requires chunks != []
    ensures Joined(chunks) == chunks[0] + Joined(chunks[1..])
    decreases |chunks|
  {
    var front := chunks[..|chunks| - 1];
    if front != [] {
      JoinedFromFront(front);
      assert front[1..] == chunks[1..][..|chunks| - 2];
    }
  }

  /** What CutWhereFull says of chunks that follow another one. */
  ghost predicate LaterChunks(chunks: seq<seq<Document>>, size: Measure, maxDocuments: nat, maxBytes: nat) {
    forall i :: 0 <= i < |chunks| ==>
      chunks[i] != [] && WithinLimits(chunks[i], size, maxDocuments, maxBytes)
      && (i > 0 ==> Full(chunks[i - 1], chunks[i][0], size, maxDocuments, maxBytes))
  }

  /** Of two greedy cuts of one log, neither first chunk can be the shorter. */
  lemma NotShorter(a: seq<seq<Document>>, b: seq<seq<Document>>, size: Measure, maxDocuments: nat, maxBytes: nat)
    requires LaterChunks(a, size, maxDocuments, maxBytes) && LaterChunks(b, size, maxDocuments, maxBytes)
    requires Joined(a) == Joined(b) && a != [] && b != []
    ensures |a[0]| >= |b[0]|
  {
    if |a[0]| < |b[0]| {
      var n := |a[0]|;
      JoinedFromFront(a);
      JoinedFromFront(b);
      assert Joined(b)[..|b[0]|] == b[0];
      assert a[1..] != [];
      JoinedFromFront(a[1..]);
      assert a[0] == Joined(a)[..n] == b[0][..n];
      assert a[1][0] == Joined(a)[n] == b[0][n];
      NotFullInside(b[0], n, size, maxDocuments, maxBytes);
      assert false;
    }
  }

  lemma {:induction false} LaterChunksAreDetermined(a: seq<seq<Document>>, b: seq<seq<Document>>, size: Measure, maxDocuments: nat, maxBytes: nat)
    requires LaterChunks(a, size, maxDocuments, maxBytes) && LaterChunks(b, size, maxDocuments, maxBytes)
    requires Joined(a) == Joined(b)
    ensures a == b
    decreases |a|
  {
    if a != [] {
      JoinedFromFront(a);
    }
    if b != [] {
      JoinedFromFront(b);
    }
    if a != [] && b != [] {
      NotShorter(a, b, size, maxDocuments, maxBytes);
      NotShorter(b, a, size, maxDocuments, maxBytes);
      assert a[0] == Joined(a)[..|a[0]|] == b[0];
      assert Joined(a[1..]) == Joined(a)[|a[0]|..];
      assert Joined(b[1..]) == Joined(b)[|b[0]|..];
      LaterChunksAreDetermined(a[1..], b[1..], size, maxDocuments, maxBytes);
      assert a == [a[0]] + a[1..] && b == [b[0]] + b[1..];
    }
  }

  /** The greedy cut is unique: the limits alone decide where a log is cut. */
  lemma GreedyCutIsUnique(docs: seq<Document>, a: seq<seq<Document>>, b: seq<seq<Document>>, size: Measure, maxDocuments: nat, maxBytes: nat)
    requires GreedyCut(docs, a, size, maxDocuments, maxBytes) && GreedyCut(docs, b, size, maxDocuments, maxBytes)
    ensures a == b
  {
    if docs != [] {
      NonEmptyPart(docs, a, size, maxDocuments, maxBytes);
      NonEmptyPart(docs, b, size, maxDocuments, maxBytes);
      LaterChunksAreDetermined(Pruned(a), Pruned(b), size, maxDocuments, maxBytes);
      assert a == (if a[0] == [] then [[]] else []) + Pruned(a);
      assert b == (if b[0] == [] then [[]] else []) + Pruned(b);
    } else {
      NoChunks(a, size, maxDocuments, maxBytes);
      NoChunks(b, size, maxDocuments, maxBytes);
    }
  }

  function Pruned(chunks: seq<seq<Document>>): seq<seq<Document>> {
    if chunks != [] && chunks[0] == [] then chunks[1..] else chunks
  }

  lemma NoChunks(chunks: seq<seq<Document>>, size: Measure, maxDocuments: nat, maxBytes: nat)
    requires GreedyCut([], chunks, size, maxDocuments, maxBytes)
    ensures chunks == []
  {
    forall i | 0 <= i < |chunks|
      ensures chunks[i] == []
    {
      if chunks[i] != [] {
        ChunksOfJoined(chunks, i, 0);
      }
    }
  }

  /** Only the first chunk can be empty, and it is exactly when the first document does not fit between the brackets. */
  lemma NonEmptyPart(docs: seq<Document>, chunks: seq<seq<Document>>, size: Measure, maxDocuments: nat, maxBytes: nat)
    requires docs != [] && GreedyCut(docs, chunks, size, maxDocuments, maxBytes)
    ensures chunks != [] && (chunks[0] == [] <==> Full([], docs[0], size, maxDocuments, maxBytes))
    ensures Joined(Pruned(chunks)) == docs && LaterChunks(Pruned(chunks), size, maxDocuments, maxBytes)
  {
    JoinedFromFront(chunks);
    var rest := Pruned(chunks);
    if chunks[0] == [] {
      JoinedFromFront(rest);
      assert Full(chunks[0], chunks[1][0], size, maxDocuments, maxBytes);
    }
    forall i | 0 <= i < |rest|
      ensures rest[i] != [] && WithinLimits(rest[i], size, maxDocuments, maxBytes)
      ensures i > 0 ==> Full(rest[i - 1], rest[i][0], size, maxDocuments, maxBytes)
    {
      var at := i + |chunks| - |rest|;
      assert rest[i] == chunks[at] && WithinLimits(chunks[at], size, maxDocuments, maxBytes);
      if i > 0 {
        assert rest[i - 1] == chunks[at - 1];
        assert Full(chunks[at - 1], chunks[at][0], size, maxDocuments, maxBytes);
      } else if at > 0 {
        assert chunks[at - 1] == [] && chunks[at] != [];
      }
    }
  }
}
