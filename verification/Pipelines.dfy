/**
 The two search pipelines from row streams to answers: the session index with its
 contributions, and the conversation view with its evidence. On the same streams they
 rank the same sessions.
 */
module Pipelines {
  import opened Texts
  import opened Scan
  import opened Fusion

  /** What the scans of the literals rank. */
  function Rankings(streams: seq<seq<Posting>>, depth: nat): (r: seq<seq<Ranked>>)
    ensures |r| == |streams|
  {
    seq(|streams|, i requires 0 <= i < |streams| => WithRanks(ScanRows(streams[i], depth)))
  }

  // ---------- The session index ----------

  ghost predicate IndexAnswer(streams: seq<seq<Posting>>, depth: nat, limit: nat, fused: seq<Fused>, truncated: bool) {
    var sources := Rankings(streams, depth);
    && (truncated <==> |AllSessions(sources)| > limit)
    && IsTop(Ids(fused), AllSessions(sources), ScoreTable(sources), limit)
    && forall i :: 0 <= i < |fused| ==>
         fused[i] == Fused(i + 1, fused[i].sessionId, Score(sources, fused[i].sessionId), AllParts(sources, fused[i].sessionId))
  }

  method SearchBatch(streams: seq<seq<Posting>>, depth: nat, limit: nat) returns (fused: seq<Fused>, truncated: bool)
    requires 1 <= depth <= MAX_DEPTH
    ensures IndexAnswer(streams, depth, limit, fused, truncated)
  {
    hide IsTop, WithRanks, ScanRows, AllSessions, ScoreTable;
    var sources: seq<seq<Ranked>> := [];
    for n := 0 to |streams|
      invariant sources == Rankings(streams, depth)[..n]
    {
      var source := SearchOneLiteral(streams[n], n, depth);
      ScanIsScanRows(streams[n], depth);
      assert source.ranked == Rankings(streams, depth)[n];
      sources := sources + [source.ranked];
    }
    assert sources == Rankings(streams, depth);
    fused, truncated := FuseSources(sources, limit);
  }

  // ---------- The conversation view ----------

  /** evidence_order: better rank, then earlier literal, then smaller sequence number. */
  predicate Better(a: Part, b: Part) {
    a.rank < b.rank || (a.rank == b.rank && (a.ordinal < b.ordinal || (a.ordinal == b.ordinal && a.posting.seqNo < b.posting.seqNo)))
  }

  datatype Held = Held(score: real, matches: set<nat>, evidence: Part)

  datatype Result = Result(rank: nat, sessionId: Text, score: real, matches: set<nat>, evidence: Part)

  function Ordinals(parts: seq<Part>): set<nat> {
    set part <- parts :: part.ordinal
  }

  /** evidence is one of the parts and none is better. */
  ghost predicate IsBest(evidence: Part, parts: seq<Part>) {
    evidence in parts && forall part <- parts :: !Better(part, evidence)
  }

  ghost predicate Holds(held: Held, acc: Accumulator) {
    held.score == acc.score && held.matches == Ordinals(acc.parts) && IsBest(held.evidence, acc.parts)
  }

  ghost predicate HoldsAll(held: map<Text, Held>, acc: map<Text, Accumulator>) {
    held.Keys == acc.Keys && forall s <- held :: Holds(held[s], acc[s])
  }

  function HoldHit(held: map<Text, Held>, s: Text, part: Part): map<Text, Held> {
    var before := if s in held then held[s] else Held(0.0, {}, part);
    held[s := Held(before.score + Contribution(part.rank), before.matches + {part.ordinal},
                   if Better(part, before.evidence) then part else before.evidence)]
  }

  function AddHit(acc: map<Text, Accumulator>, s: Text, part: Part): map<Text, Accumulator> {
    var before := if s in acc then acc[s] else Accumulator(0.0, []);
    acc[s := Accumulator(before.score + Contribution(part.rank), before.parts + [part])]
  }

  lemma HoldsStep(held: map<Text, Held>, acc: map<Text, Accumulator>, s: Text, part: Part)
    requires HoldsAll(held, acc)
    ensures HoldsAll(HoldHit(held, s, part), AddHit(acc, s, part))
  {
    hide Contribution;
    var parts := if s in acc then acc[s].parts else [];
    assert Ordinals(parts + [part]) == Ordinals(parts) + {part.ordinal};
    assert forall x :: x in parts + [part] <==> x in parts || x == part;
  }

  ghost predicate ViewAnswer(streams: seq<seq<Posting>>, limit: nat, results: seq<Result>, truncated: bool) {
    var sources := Rankings(streams, MAX_DEPTH);
    && (truncated <==> |AllSessions(sources)| > limit)
    && IsTop(ResultIds(results), AllSessions(sources), ScoreTable(sources), limit)
    && forall i :: 0 <= i < |results| ==> Describes(results[i], i + 1, sources)
  }

  ghost predicate Describes(r: Result, rank: nat, sources: seq<seq<Ranked>>) {
    && r.rank == rank
    && r.score == Score(sources, r.sessionId)
    && r.matches == Ordinals(AllParts(sources, r.sessionId))
    && IsBest(r.evidence, AllParts(sources, r.sessionId))
  }

  function ResultIds(results: seq<Result>): seq<Text> {
    seq(|results|, i requires 0 <= i < |results| => results[i].sessionId)
  }

  function HeldScores(held: map<Text, Held>): map<Text, real> {
    map s <- held :: held[s].score
  }

  /** The fusion loop of execute. */
  method FuseConversation(sources: seq<seq<Ranked>>) returns (held: map<Text, Held>)
    ensures held.Keys == AllSessions(sources) && HeldScores(held) == ScoreTable(sources)
    ensures forall s <- held, rank: nat :: Describes(Result(rank, s, held[s].score, held[s].matches, held[s].evidence), rank, sources)
  {
    hide Accumulated, HoldsAll, Contribution, Better, AllSessions, ScoreTable, HeldScores, Describes;
    held := map[];
    ghost var acc: map<Text, Accumulator> := map[];
    NothingAccumulated(sources);
    assert HoldsAll(held, acc) by {
      NothingHeld();
    }
    for n := 0 to |sources|
      invariant Accumulated(acc, sources, n, []) && HoldsAll(held, acc)
    {
      NoHitsYet(sources, n);
      for m := 0 to |sources[n]|
        invariant Accumulated(acc, sources, n, sources[n][..m]) && HoldsAll(held, acc)
      {
        var hit := sources[n][m];
        var s, part := hit.posting.sessionId, Part(n, hit.rank, hit.posting);
        AccumulatedStep(acc, sources, n, m);
        HoldsStep(held, acc, s, part);
        acc := AddHit(acc, s, part);
        var before := if s in held then held[s] else Held(0.0, {}, part);
        held := held[s := Held(before.score + Contribution(part.rank), before.matches + {part.ordinal},
                               if Better(part, before.evidence) then part else before.evidence)];
      }
      assert sources[n][..|sources[n]|] == sources[n];
      SourceDone(acc, sources, n);
    }
    HeldDescribes(held, acc, sources);
  }

  lemma NothingHeld()
    ensures HoldsAll(map[], map[])
  {
  }

  lemma HeldDescribes(held: map<Text, Held>, acc: map<Text, Accumulator>, sources: seq<seq<Ranked>>)
    requires Accumulated(acc, sources, |sources|, []) && HoldsAll(held, acc)
    ensures held.Keys == AllSessions(sources) == HeldScores(held).Keys && HeldScores(held) == ScoreTable(sources)
    ensures forall s <- held, rank: nat :: Describes(Result(rank, s, held[s].score, held[s].matches, held[s].evidence), rank, sources)
  {
    hide Accumulated;
    AllAccumulated(acc, sources);
    hide AllSessions, IsBest, Score, AllParts;
  }

  /** execute of the conversation view, from the row streams of its literals on. */
  method ExecuteConversation(streams: seq<seq<Posting>>, limit: nat) returns (results: seq<Result>, truncated: bool)
    ensures ViewAnswer(streams, limit, results, truncated)
  {
    hide IsTop, WithRanks, ScanRows, AllSessions, ScoreTable, Accumulated, HoldsAll, Describes, HeldScores, Ordered;
    var sources := ScanAll(streams);
    var held := FuseConversation(sources);
    truncated := |held.Keys| > limit;
    var ids := BestHeld(held, limit);
    results := seq(|ids|, i requires 0 <= i < |ids| => Result(i + 1, ids[i], held[ids[i]].score, held[ids[i]].matches, held[ids[i]].evidence));
    assert ResultIds(results) == ids;
  }

  /** Sorting the sessions held and cutting them at the limit. */
  method BestHeld(held: map<Text, Held>, limit: nat) returns (ids: seq<Text>)
    ensures IsTop(ids, held.Keys, HeldScores(held), limit)
    ensures forall i :: 0 <= i < |ids| ==> ids[i] in held
  {
    hide IsTop, HeldScores, Ordered;
    ScoredSessions(held);
    var ordered := SortByScore(HeldScores(held));
    SortedPrefixIsTop(ordered, HeldScores(held), limit);
    ids := Take(ordered, limit);
    TopIsPresent(ids, held.Keys, HeldScores(held), limit);
  }

  lemma ScoredSessions(held: map<Text, Held>)
    ensures HeldScores(held).Keys == held.Keys
  {
  }

  /** The scan of each literal in turn. */
  method ScanAll(streams: seq<seq<Posting>>) returns (sources: seq<seq<Ranked>>)
    ensures sources == Rankings(streams, MAX_DEPTH)
  {
    hide WithRanks, ScanRows;
    sources := [];
    for n := 0 to |streams|
      invariant sources == Rankings(streams, MAX_DEPTH)[..n]
    {
      var hits, scanned := SearchLiteral(streams[n]);
      ScanIsScanRows(streams[n], MAX_DEPTH);
      assert hits == Rankings(streams, MAX_DEPTH)[n];
      sources := sources + [hits];
    }
    assert sources == Rankings(streams, MAX_DEPTH);
  }

  lemma ScanIsScanRows(stream: seq<Posting>, depth: nat)
    ensures ScanRows(stream, depth) == Take(Firsts(Take(stream, POSTING_BUDGET)), depth)
  {
  }

  // ---------- The pipelines agree ----------

  /**
   With the depth of the view and the same limit, both pipelines answer the same row streams
   with the same sessions in the same order, the same scores and the same truncation.
   */
  lemma PipelinesAgree(streams: seq<seq<Posting>>, limit: nat, fused: seq<Fused>, truncated: bool, results: seq<Result>, truncated': bool)
    requires IndexAnswer(streams, MAX_DEPTH, limit, fused, truncated) && ViewAnswer(streams, limit, results, truncated')
    ensures truncated == truncated' && |fused| == |results|
    ensures forall i :: 0 <= i < |fused| ==>
              && fused[i].rank == results[i].rank && fused[i].sessionId == results[i].sessionId && fused[i].score == results[i].score
              && results[i].matches == Ordinals(fused[i].parts) && IsBest(results[i].evidence, fused[i].parts)
  {
    var sources := Rankings(streams, MAX_DEPTH);
    TopIsUnique(Ids(fused), ResultIds(results), AllSessions(sources), ScoreTable(sources), limit);
    hide IsTop, ScoreTable, AllSessions, Score, AllParts, IsBest;
    forall i | 0 <= i < |fused|
      ensures fused[i].sessionId == results[i].sessionId
    {
      assert Ids(fused)[i] == ResultIds(results)[i];
    }
  }

  /** A source that ranks no session twice contributes to each session once, by its rank. */
  lemma {:induction false} OneContribution(ordinal: nat, hits: seq<Ranked>, k: nat)
    requires k < |hits|
    requires forall i, j :: 0 <= i < j < |hits| ==> hits[i].posting.sessionId != hits[j].posting.sessionId
    ensures var s := hits[k].posting.sessionId;
            Share(hits, s) == Contribution(hits[k].rank) && PartsOf(ordinal, hits, s) == [Part(ordinal, hits[k].rank, hits[k].posting)]
    decreases |hits|
  {
    var s, front := hits[k].posting.sessionId, hits[..|hits| - 1];
    if k < |front| {
      OneContribution(ordinal, front, k);
    } else {
      AbsentMeansNothing(ordinal, front, s);
    }
  }

  /** Each scan contributes at most once to a session. */
  lemma ScansContributeOnce(streams: seq<seq<Posting>>, depth: nat, i: nat, s: Text)
    requires i < |streams|
    ensures |PartsOf(i, Rankings(streams, depth)[i], s)| <= 1
  {
    var hits := Rankings(streams, depth)[i];
    ScanIsRanked(streams[i], depth);
    if s in SessionsIn(hits) {
      var k :| 0 <= k < |hits| && hits[k].posting.sessionId == s;
      OneContribution(i, hits, k);
    } else {
      AbsentMeansNothing(i, hits, s);
    }
  }

  /** No two parts tie as evidence, so the evidence of a session is determined. */
  lemma EvidenceIsUnique(a: Part, b: Part, parts: seq<Part>)
    requires IsBest(a, parts) && IsBest(b, parts)
    ensures a.rank == b.rank && a.ordinal == b.ordinal && a.posting.seqNo == b.posting.seqNo
  {
  }

  // ---------- Document keys ----------

  function Digit(d: nat): Byte
    requires d < 10
  {
    (48 + d) as Byte
  }

  function Decimal(n: nat): (r: Text)
    ensures r != [] && forall b <- r :: 48 <= b <= 57
  {
    if n < 10 then [Digit(n)] else Decimal(n / 10) + [Digit(n % 10)]
  }

  const COLON: Byte := 58
  const KEY_PREFIX: Text := [100, 111, 99, 117, 109, 101, 110, 116, 45, 118, 49, 58]

  /** stable_document_key */
  function DocumentKey(p: Posting): Text {
    KEY_PREFIX + Decimal(|p.sessionId|) + [COLON] + p.sessionId + [COLON] + Decimal(p.seqNo) + [COLON] + p.fingerprint
  }

  lemma {:induction false} DecimalIsInjective(m: nat, n: nat)
    requires Decimal(m) == Decimal(n)
    ensures m == n
    decreases m + n
  {
    var a, b := Decimal(m), Decimal(n);
    assert a[|a| - 1] == b[|b| - 1];
    assert a[..|a| - 1] == b[..|b| - 1];
    assert (m < 10 <==> |a| == 1) && (n < 10 <==> |b| == 1);
    if m >= 10 {
      assert a[..|a| - 1] == Decimal(m / 10) && b[..|b| - 1] == Decimal(n / 10);
      DecimalIsInjective(m / 10, n / 10);
    }
  }

  /** The length of the session id makes the key unambiguous, whatever separators ids and fingerprints contain. */
  lemma DocumentKeyIsInjective(p: Posting, q: Posting)
    requires DocumentKey(p) == DocumentKey(q)
    ensures p == q
  {
    hide Decimal;
    KeyParts(p);
    KeyParts(q);
    SeparatorSplits(COLON, Decimal(|p.sessionId|), KeyTail(p), Decimal(|q.sessionId|), KeyTail(q));
    DecimalIsInjective(|p.sessionId|, |q.sessionId|);
    TailIsInjective(p, q);
  }

  function KeyTail(p: Posting): Text {
    p.sessionId + [COLON] + Decimal(p.seqNo) + [COLON] + p.fingerprint
  }

  lemma KeyParts(p: Posting)
    ensures DocumentKey(p)[|KEY_PREFIX|..] == Decimal(|p.sessionId|) + [COLON] + KeyTail(p)
  {
    hide Decimal;
    assert DocumentKey(p) == KEY_PREFIX + (Decimal(|p.sessionId|) + [COLON] + KeyTail(p));
  }

  lemma TailIsInjective(p: Posting, q: Posting)
    requires |p.sessionId| == |q.sessionId| && KeyTail(p) == KeyTail(q)
    ensures p == q
  {
    hide Decimal;
    var n := |p.sessionId|;
    assert KeyTail(p)[..n] == p.sessionId && KeyTail(q)[..n] == q.sessionId;
    assert KeyTail(p)[n + 1..] == Decimal(p.seqNo) + [COLON] + p.fingerprint;
    assert KeyTail(q)[n + 1..] == Decimal(q.seqNo) + [COLON] + q.fingerprint;
    SeparatorSplits(COLON, Decimal(p.seqNo), p.fingerprint, Decimal(q.seqNo), q.fingerprint);
    DecimalIsInjective(p.seqNo, q.seqNo);
  }
}
