/**
 Reciprocal-rank fusion of the scans of several literals, in both of its versions, with
 exact rationals for the scores.
 */
module Fusion {
  import opened Texts
  import opened Sorting
  import opened Scan

  const RRF_K := 60

  // ---------- Scores ----------

  function Contribution(rank: nat): real {
    1.0 / (RRF_K + rank) as real
  }

  /** What one source contributes to a session. */
  function Share(hits: seq<Ranked>, s: Text): real
    decreases |hits|
  {
    if hits == [] then 0.0
    else
      var last := hits[|hits| - 1];
      Share(hits[..|hits| - 1], s) + if last.posting.sessionId == s then Contribution(last.rank) else 0.0
  }

  function Score(sources: seq<seq<Ranked>>, s: Text): real
    decreases |sources|
  {
    if sources == [] then 0.0 else Score(sources[..|sources| - 1], s) + Share(sources[|sources| - 1], s)
  }

  function SessionsIn(hits: seq<Ranked>): set<Text> {
    set hit <- hits :: hit.posting.sessionId
  }

  function AllSessions(sources: seq<seq<Ranked>>): set<Text> {
    set i, j | 0 <= i < |sources| && 0 <= j < |sources[i]| :: sources[i][j].posting.sessionId
  }

  // ---------- The order of results ----------

  /** Higher score first, then the smaller session id. */
  predicate Ahead(score: map<Text, real>, a: Text, b: Text)
    requires a in score && b in score
  {
    score[a] > score[b] || (score[a] == score[b] && Less(a, b))
  }

  lemma AheadIsStrictTotal(score: map<Text, real>, a: Text, b: Text)
    requires a in score && b in score
    ensures a == b || Ahead(score, a, b) || Ahead(score, b, a)
    ensures Ahead(score, a, b) ==> a != b && !Ahead(score, b, a)
  {
    LessIsTotal(a, b);
  }

  lemma AheadIsTransitive(score: map<Text, real>, a: Text, b: Text, c: Text)
    requires a in score && b in score && c in score && Ahead(score, a, b) && Ahead(score, b, c)
    ensures Ahead(score, a, c)
  {
    if Less(a, b) && Less(b, c) {
      LessIsTransitive(a, b, c);
    }
  }

  ghost predicate Ordered(ids: seq<Text>, score: map<Text, real>) {
    && (forall i :: 0 <= i < |ids| ==> ids[i] in score)
    && (forall i, j :: 0 <= i < j < |ids| ==> Ahead(score, ids[i], ids[j]))
  }

  /** The k best of all, best first. */
  ghost predicate IsTop(ids: seq<Text>, all: set<Text>, score: map<Text, real>, k: nat) {
    && all <= score.Keys && Ordered(ids, score)
    && (forall id <- ids :: id in all)
    && |ids| == (if k < |all| then k else |all|)
    && (forall i, other :: 0 <= i < |ids| && other in all && other !in ids ==> Ahead(score, ids[i], other))
  }

  function ByScore(score: map<Text, real>): (Text, Text) -> bool {
    (a, b) => a in score && b in score && Ahead(score, a, b)
  }

  function Scored(score: map<Text, real>): Text -> bool {
    id => id in score
  }

  lemma ByScoreIsStrict(score: map<Text, real>)
    ensures StrictOrder(ByScore(score), Scored(score))
  {
    forall a, b | a in score && b in score
      ensures a == b || Ahead(score, a, b) || Ahead(score, b, a)
      ensures Ahead(score, a, b) ==> !Ahead(score, b, a)
    {
      AheadIsStrictTotal(score, a, b);
    }
    forall a, b, c | a in score && b in score && c in score && Ahead(score, a, b) && Ahead(score, b, c)
      ensures Ahead(score, a, c)
    {
      AheadIsTransitive(score, a, b, c);
    }
    hide Ahead;
  }

  /** sort_by: the sessions of a map of scores in result order. */
  method SortByScore(score: map<Text, real>) returns (ids: seq<Text>)
    ensures Ordered(ids, score) && |ids| == |score| && forall x :: x in ids <==> x in score
  {
    var listed: seq<Text> := [];
    var rest := score.Keys;
    while rest != {}
      invariant rest <= score.Keys && multiset(listed) + multiset(rest) == multiset(score.Keys)
      decreases |rest|
    {
      var id :| id in rest;
      listed, rest := listed + [id], rest - {id};
    }
    ids := Sort(listed, ByScore(score));
    SortedKeys(listed, ids, score);
  }

  lemma SortedKeys(listed: seq<Text>, ids: seq<Text>, score: map<Text, real>)
    requires multiset(listed) == multiset(score.Keys) && ids == Sort(listed, ByScore(score))
    ensures Ordered(ids, score) && |ids| == |score| && forall x :: x in ids <==> x in score
  {
    KeysOnce(listed, score);
    KeysOnce(ids, score);
    ByScoreIsStrict(score);
    assert AllOn(listed, Scored(score));
    hide StrictOrder, Ahead;
    SortSorts(listed, ByScore(score), Scored(score));
    forall i, j | 0 <= i < j < |ids|
      ensures Ahead(score, ids[i], ids[j])
    {
      assert !ByScore(score)(ids[j], ids[i]);
      AheadIsStrictTotal(score, ids[i], ids[j]);
    }
  }

  lemma KeysOnce(listed: seq<Text>, score: map<Text, real>)
    requires multiset(listed) == multiset(score.Keys)
    ensures |listed| == |score| && forall x :: x in listed <==> x in score
    ensures forall i, j :: 0 <= i < j < |listed| ==> listed[i] != listed[j]
    ensures forall i :: 0 <= i < |listed| ==> listed[i] in score
  {
    assert |listed| == |multiset(listed)| == |score.Keys|;
    assert forall x :: x in listed <==> x in multiset(listed);
    forall i, j | 0 <= i < j < |listed|
      ensures listed[i] != listed[j]
    {
      if listed[i] == listed[j] {
        RepeatedElement(listed, i, j);
      }
    }
  }

  /** sort and truncate: the k best. */
  lemma SortedPrefixIsTop(ids: seq<Text>, score: map<Text, real>, k: nat)
    requires Ordered(ids, score) && forall x :: x in ids <==> x in score
    requires |ids| == |score|
    ensures IsTop(Take(ids, k), score.Keys, score, k)
  {
    var top := Take(ids, k);
    forall i, other | 0 <= i < |top| && other in score && other !in top
      ensures Ahead(score, top[i], other)
    {
      var j :| 0 <= j < |ids| && ids[j] == other;
      assert forall n :: 0 <= n < |top| ==> top[n] == ids[n];
    }
  }

  /** There is only one list of the k best. */
  lemma {:induction false} TopIsUnique(a: seq<Text>, b: seq<Text>, all: set<Text>, score: map<Text, real>, k: nat)
    requires IsTop(a, all, score, k) && IsTop(b, all, score, k)
    ensures a == b
  {
    forall n | 0 <= n <= |a|
      ensures a[..n] == b[..n]
    {
      TopPrefixesAgree(a, b, all, score, k, n);
    }
    assert a[..|a|] == a && b[..|a|] == b;
  }

  lemma {:induction false} TopPrefixesAgree(a: seq<Text>, b: seq<Text>, all: set<Text>, score: map<Text, real>, k: nat, n: nat)
    requires IsTop(a, all, score, k) && IsTop(b, all, score, k) && n <= |a|
    ensures a[..n] == b[..n]
    decreases n
  {
    if n > 0 {
      TopPrefixesAgree(a, b, all, score, k, n - 1);
      NextIsAhead(a, b, all, score, k, n - 1);
      NextIsAhead(b, a, all, score, k, n - 1);
      AheadIsStrictTotal(score, a[n - 1], b[n - 1]);
      assert a[..n] == a[..n - 1] + [a[n - 1]] && b[..n] == b[..n - 1] + [b[n - 1]];
    }
  }

  lemma NextIsAhead(a: seq<Text>, b: seq<Text>, all: set<Text>, score: map<Text, real>, k: nat, n: nat)
    requires IsTop(a, all, score, k) && IsTop(b, all, score, k) && n < |a| && a[..n] == b[..n]
    ensures a[n] == b[n] || Ahead(score, a[n], b[n])
  {
    if b[n] in a {
      var j :| 0 <= j < |a| && a[j] == b[n];
      if j < n {
        assert b[j] == a[..n][j];
        AheadIsStrictTotal(score, b[j], b[n]);
      }
    }
  }

  // ---------- fuse_sources ----------

  datatype Part = Part(ordinal: nat, rank: nat, posting: Posting)

  datatype Accumulator = Accumulator(score: real, parts: seq<Part>)

  datatype Fused = Fused(rank: nat, sessionId: Text, score: real, parts: seq<Part>)

  /** The hits of a session in one source, in order. */
  function PartsOf(ordinal: nat, hits: seq<Ranked>, s: Text): seq<Part>
    decreases |hits|
  {
    if hits == [] then []
    else
      var last := hits[|hits| - 1];
      PartsOf(ordinal, hits[..|hits| - 1], s)
      + if last.posting.sessionId == s then [Part(ordinal, last.rank, last.posting)] else []
  }

  function AllParts(sources: seq<seq<Ranked>>, s: Text): seq<Part>
    decreases |sources|
  {
    if sources == [] then [] else AllParts(sources[..|sources| - 1], s) + PartsOf(|sources| - 1, sources[|sources| - 1], s)
  }

  /** The accumulators after the first n sources and the first m hits of the next. */
  ghost predicate Accumulated(acc: map<Text, Accumulator>, sources: seq<seq<Ranked>>, n: nat, hits: seq<Ranked>)
    requires n <= |sources|
  {
    && acc.Keys == AllSessions(sources[..n]) + SessionsIn(hits)
    && forall s <- acc :: acc[s] == Accumulator(Score(sources[..n], s) + Share(hits, s), AllParts(sources[..n], s) + PartsOf(n, hits, s))
  }

  lemma {:induction false} AbsentMeansNothing(ordinal: nat, hits: seq<Ranked>, s: Text)
    requires s !in SessionsIn(hits)
    ensures Share(hits, s) == 0.0 && PartsOf(ordinal, hits, s) == []
    decreases |hits|
  {
    if hits != [] {
      assert hits[|hits| - 1] in hits;
      assert forall hit <- hits[..|hits| - 1] :: hit in hits;
      AbsentMeansNothing(ordinal, hits[..|hits| - 1], s);
    }
  }

  lemma {:induction false} AbsentEverywhere(sources: seq<seq<Ranked>>, s: Text)
    requires s !in AllSessions(sources)
    ensures Score(sources, s) == 0.0 && AllParts(sources, s) == []
    decreases |sources|
  {
    if sources != [] {
      var front, last := sources[..|sources| - 1], sources[|sources| - 1];
      AllSessionsStep(sources, |sources| - 1);
      assert sources[..|sources|] == sources;
      AbsentEverywhere(front, s);
      AbsentMeansNothing(|sources| - 1, last, s);
    }
  }

  lemma AllSessionsStep(sources: seq<seq<Ranked>>, n: nat)
    requires n < |sources|
    ensures AllSessions(sources[..n + 1]) == AllSessions(sources[..n]) + SessionsIn(sources[n])
  {
    var a, b := AllSessions(sources[..n + 1]), AllSessions(sources[..n]) + SessionsIn(sources[n]);
    forall s | s in a
      ensures s in b
    {
      var i, j :| 0 <= i < n + 1 && 0 <= j < |sources[..n + 1][i]| && sources[..n + 1][i][j].posting.sessionId == s;
      if i < n {
        assert sources[..n][i][j].posting.sessionId == s;
      } else {
        assert sources[n][j] in sources[n];
      }
    }
    forall s | s in b
      ensures s in a
    {
      if s in AllSessions(sources[..n]) {
        var i, j :| 0 <= i < n && 0 <= j < |sources[..n][i]| && sources[..n][i][j].posting.sessionId == s;
        assert sources[..n + 1][i][j].posting.sessionId == s;
      } else {
        var j :| 0 <= j < |sources[n]| && sources[n][j].posting.sessionId == s;
        assert sources[..n + 1][n][j].posting.sessionId == s;
      }
    }
  }

  lemma AccumulatedStep(acc: map<Text, Accumulator>, sources: seq<seq<Ranked>>, n: nat, m: nat)
    requires n < |sources| && m < |sources[n]| && Accumulated(acc, sources, n, sources[n][..m])
    ensures var hit := sources[n][m];
            var s := hit.posting.sessionId;
            var before := if s in acc then acc[s] else Accumulator(0.0, []);
            Accumulated(acc[s := Accumulator(before.score + Contribution(hit.rank), before.parts + [Part(n, hit.rank, hit.posting)])],
                        sources, n, sources[n][..m + 1])
  {
    hide Score, AllParts, AllSessions, SessionsIn, Share, PartsOf, Contribution;
    var hits, hit := sources[n][..m], sources[n][m];
    var s := hit.posting.sessionId;
    assert sources[n][..m + 1] == hits + [hit];
    OneMoreHit(n, hits, hit);
    if s !in acc {
      AbsentEverywhere(sources[..n], s);
      AbsentMeansNothing(n, hits, s);
    }
  }

  lemma OneMoreHit(ordinal: nat, hits: seq<Ranked>, hit: Ranked)
    ensures SessionsIn(hits + [hit]) == SessionsIn(hits) + {hit.posting.sessionId}
    ensures forall s :: Share(hits + [hit], s) == Share(hits, s) + if hit.posting.sessionId == s then Contribution(hit.rank) else 0.0
    ensures forall s :: PartsOf(ordinal, hits + [hit], s)
                     == PartsOf(ordinal, hits, s) + if hit.posting.sessionId == s then [Part(ordinal, hit.rank, hit.posting)] else []
  {
    assert (hits + [hit])[..|hits|] == hits;
  }

  lemma SourceDone(acc: map<Text, Accumulator>, sources: seq<seq<Ranked>>, n: nat)
    requires n < |sources| && Accumulated(acc, sources, n, sources[n])
    ensures Accumulated(acc, sources, n + 1, [])
  {
    assert sources[..n + 1][..n] == sources[..n];
    AllSessionsStep(sources, n);
  }

  function Scores(acc: map<Text, Accumulator>): map<Text, real> {
    map s <- acc :: acc[s].score
  }

  /** fuse_sources */
  method FuseSources(sources: seq<seq<Ranked>>, limit: nat) returns (fused: seq<Fused>, truncated: bool)
    ensures truncated <==> |AllSessions(sources)| > limit
    ensures IsTop(Ids(fused), AllSessions(sources), ScoreTable(sources), limit)
    ensures forall i :: 0 <= i < |fused| ==>
              fused[i] == Fused(i + 1, fused[i].sessionId, Score(sources, fused[i].sessionId), AllParts(sources, fused[i].sessionId))
  {
    hide Accumulated, AllSessions, IsTop, Ordered, ScoreTable, Scores, Score, AllParts;
    var acc: map<Text, Accumulator> := map[];
    NothingAccumulated(sources);
    for n := 0 to |sources|
      invariant Accumulated(acc, sources, n, [])
    {
      NoHitsYet(sources, n);
      for m := 0 to |sources[n]|
        invariant Accumulated(acc, sources, n, sources[n][..m])
      {
        AccumulatedStep(acc, sources, n, m);
        var hit := sources[n][m];
        var s := hit.posting.sessionId;
        var before := if s in acc then acc[s] else Accumulator(0.0, []);
        acc := acc[s := Accumulator(before.score + Contribution(hit.rank), before.parts + [Part(n, hit.rank, hit.posting)])];
      }
      assert sources[n][..|sources[n]|] == sources[n];
      SourceDone(acc, sources, n);
    }
    AllAccumulated(acc, sources);
    var ordered := SortByScore(Scores(acc));
    truncated := |acc.Keys| > limit;
    SortedPrefixIsTop(ordered, Scores(acc), limit);
    var ids := Take(ordered, limit);
    TopIsPresent(ids, acc.Keys, Scores(acc), limit);
    fused := seq(|ids|, i requires 0 <= i < |ids| => Fused(i + 1, ids[i], acc[ids[i]].score, acc[ids[i]].parts));
    assert Ids(fused) == ids;
  }

  lemma TopIsPresent(ids: seq<Text>, all: set<Text>, score: map<Text, real>, k: nat)
    requires IsTop(ids, all, score, k)
    ensures forall i :: 0 <= i < |ids| ==> ids[i] in all
  {
  }

  lemma NothingAccumulated(sources: seq<seq<Ranked>>)
    ensures Accumulated(map[], sources, 0, [])
  {
  }

  lemma NoHitsYet(sources: seq<seq<Ranked>>, n: nat)
    requires n < |sources|
    ensures sources[n][..0] == []
  {
  }

  lemma AllAccumulated(acc: map<Text, Accumulator>, sources: seq<seq<Ranked>>)
    requires Accumulated(acc, sources, |sources|, [])
    ensures acc.Keys == AllSessions(sources) && Scores(acc).Keys == acc.Keys && Scores(acc) == ScoreTable(sources)
    ensures forall s <- acc :: acc[s] == Accumulator(Score(sources, s), AllParts(sources, s))
  {
    hide AllSessions;
    assert sources[..|sources|] == sources;
    assert SessionsIn([]) == {};
  }

  function Ids(fused: seq<Fused>): seq<Text> {
    seq(|fused|, i requires 0 <= i < |fused| => fused[i].sessionId)
  }

  function ScoreTable(sources: seq<seq<Ranked>>): map<Text, real> {
    map s <- AllSessions(sources) :: Score(sources, s)
  }
}
