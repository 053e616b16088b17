/**
 What reciprocal-rank fusion means for the order of an answer: scores are sums of reciprocals,
 one literal keeps its scan order, and a session ranked better by the scans comes first.
 */
module RankOrder {
  import opened Texts
  import opened Scan
  import opened Fusion
  import opened Pipelines

  // ---------- Scores are sums of reciprocals ----------

  function Sum(xs: seq<real>): real
    decreases |xs|
  {
    if xs == [] then 0.0 else Sum(xs[..|xs| - 1]) + xs[|xs| - 1]
  }

  lemma {:induction false} SumConcat(a: seq<real>, b: seq<real>)
    ensures Sum(a + b) == Sum(a) + Sum(b)
    decreases |b|
  {
    if b == [] {
      assert a + b == a;
    } else {
      assert (a + b)[..|a + b| - 1] == a + b[..|b| - 1];
      SumConcat(a, b[..|b| - 1]);
    }
  }

  /** Each number is the reciprocal of sixty plus the rank of its part. */
  ghost predicate Reciprocals(xs: seq<real>, parts: seq<Part>) {
    |xs| == |parts| && forall i :: 0 <= i < |xs| ==> xs[i] * (60 + parts[i].rank) as real == 1.0
  }

  lemma ReciprocalOf(rank: nat)
    ensures Contribution(rank) * (60 + rank) as real == 1.0 && Contribution(rank) > 0.0
  {
  }

  lemma ReciprocalsConcat(xs: seq<real>, parts: seq<Part>, ys: seq<real>, more: seq<Part>)
    requires Reciprocals(xs, parts) && Reciprocals(ys, more)
    ensures Reciprocals(xs + ys, parts + more)
  {
  }

  lemma OneReciprocal(part: Part)
    ensures Reciprocals([Contribution(part.rank)], [part])
  {
    ReciprocalOf(part.rank);
    hide Contribution;
  }

  lemma {:induction false} ShareIsSum(ordinal: nat, hits: seq<Ranked>, s: Text) returns (xs: seq<real>)
    ensures Reciprocals(xs, PartsOf(ordinal, hits, s)) && Share(hits, s) == Sum(xs)
    decreases |hits|
  {
    hide Reciprocals, Contribution;
    if hits == [] {
      xs := [];
      NoReciprocals();
      return;
    }
    var last := hits[|hits| - 1];
    xs := ShareIsSum(ordinal, hits[..|hits| - 1], s);
    if last.posting.sessionId == s {
      var x, part := Contribution(last.rank), Part(ordinal, last.rank, last.posting);
      OneReciprocal(part);
      SumConcat(xs, [x]);
      OneTerm(x);
      ReciprocalsConcat(xs, PartsOf(ordinal, hits[..|hits| - 1], s), [x], [part]);
      xs := xs + [x];
    } else {
      assert PartsOf(ordinal, hits, s) == PartsOf(ordinal, hits[..|hits| - 1], s);
    }
  }

  lemma NoReciprocals()
    ensures Reciprocals([], [])
  {
  }

  lemma OneTerm(x: real)
    ensures Sum([x]) == x
  {
    assert [x][..0] == [];
  }

  lemma {:induction false} ScoreIsSum(sources: seq<seq<Ranked>>, s: Text) returns (xs: seq<real>)
    ensures Reciprocals(xs, AllParts(sources, s)) && Score(sources, s) == Sum(xs)
    decreases |sources|
  {
    if sources == [] {
      xs := [];
      return;
    }
    hide Reciprocals;
    var front, last := sources[..|sources| - 1], sources[|sources| - 1];
    xs := ScoreIsSum(front, s);
    var more := ShareIsSum(|sources| - 1, last, s);
    SumConcat(xs, more);
    ReciprocalsConcat(xs, AllParts(front, s), more, PartsOf(|sources| - 1, last, s));
    xs := xs + more;
  }

  /**
   The score of an answered session is the sum, over the parts listed with it, of the reciprocals
   of sixty plus the rank of the part.
   */
  lemma ScoresAreReciprocals(streams: seq<seq<Posting>>, depth: nat, limit: nat, fused: seq<Fused>, truncated: bool, i: nat)
    returns (xs: seq<real>)
    requires IndexAnswer(streams, depth, limit, fused, truncated) && i < |fused|
    ensures Reciprocals(xs, fused[i].parts) && fused[i].score == Sum(xs)
  {
    hide IsTop;
    xs := ScoreIsSum(Rankings(streams, depth), fused[i].sessionId);
  }

  // ---------- Better ranked, higher score ----------

  /** The source ranks session s at this rank. */
  predicate Ranks(hits: seq<Ranked>, s: Text, rank: nat) {
    exists hit <- hits :: hit.posting.sessionId == s && hit.rank == rank
  }

  ghost predicate NoWorse(hits: seq<Ranked>, a: Text, b: Text) {
    forall rank: nat :: Ranks(hits, b, rank) ==> exists better: nat :: better <= rank && Ranks(hits, a, better)
  }

  ghost predicate RanksBefore(hits: seq<Ranked>, a: Text, b: Text) {
    exists better: nat :: Ranks(hits, a, better) && forall rank: nat :: Ranks(hits, b, rank) ==> better < rank
  }

  ghost predicate Distinct(hits: seq<Ranked>) {
    forall i, j :: 0 <= i < j < |hits| ==> hits[i].posting.sessionId != hits[j].posting.sessionId
  }

  lemma Cancels(x: real, y: real, m: real)
    requires m > 0.0 && x * m > y * m
    ensures x > y
  {
  }

  lemma ContributionFalls(a: nat, b: nat)
    requires a < b
    ensures Contribution(a) > Contribution(b)
  {
    ReciprocalOf(a);
    ReciprocalOf(b);
    var x, y, m, n := Contribution(a), Contribution(b), (60 + a) as real, (60 + b) as real;
    hide Contribution;
    assert y * n == y * m + y * (n - m);
    Cancels(x, y, m);
  }

  lemma ShareOfRank(hits: seq<Ranked>, s: Text, rank: nat)
    requires Distinct(hits) && Ranks(hits, s, rank)
    ensures Share(hits, s) == Contribution(rank)
  {
    var k :| 0 <= k < |hits| && hits[k].posting.sessionId == s && hits[k].rank == rank;
    OneContribution(0, hits, k);
  }

  /** Without a rank a source contributes nothing, with one something positive. */
  lemma ShareWithoutRank(hits: seq<Ranked>, s: Text)
    requires Distinct(hits)
    ensures (forall rank: nat :: !Ranks(hits, s, rank)) ==> Share(hits, s) == 0.0
    ensures (exists rank: nat :: Ranks(hits, s, rank)) ==> Share(hits, s) > 0.0
  {
    if s in SessionsIn(hits) {
      var k :| 0 <= k < |hits| && hits[k].posting.sessionId == s;
      assert Ranks(hits, s, hits[k].rank);
      ShareOfRank(hits, s, hits[k].rank);
      ReciprocalOf(hits[k].rank);
    } else {
      AbsentMeansNothing(0, hits, s);
      forall rank: nat
        ensures !Ranks(hits, s, rank)
      {
        assert forall hit <- hits :: hit.posting.sessionId in SessionsIn(hits);
      }
    }
  }

  lemma ShareFalls(hits: seq<Ranked>, a: Text, better: nat, b: Text, rank: nat)
    requires Distinct(hits) && Ranks(hits, a, better) && Ranks(hits, b, rank) && better <= rank
    ensures Share(hits, a) >= Share(hits, b) && (better < rank ==> Share(hits, a) > Share(hits, b))
  {
    hide Distinct, Ranks, Share, Contribution;
    ShareOfRank(hits, a, better);
    ShareOfRank(hits, b, rank);
    if better < rank {
      ContributionFalls(better, rank);
    }
  }

  lemma ShareFollowsRank(hits: seq<Ranked>, a: Text, b: Text)
    requires Distinct(hits) && NoWorse(hits, a, b)
    ensures Share(hits, a) >= Share(hits, b)
    ensures RanksBefore(hits, a, b) ==> Share(hits, a) > Share(hits, b)
  {
    hide Distinct, Ranks, Share;
    ShareWithoutRank(hits, a);
    ShareWithoutRank(hits, b);
    if rank: nat :| Ranks(hits, b, rank) {
      var better: nat :| better <= rank && Ranks(hits, a, better);
      ShareFalls(hits, a, better, b, rank);
      if best: nat :| Ranks(hits, a, best) && forall r: nat :: Ranks(hits, b, r) ==> best < r {
        ShareFalls(hits, a, best, b, rank);
      }
    }
  }

  lemma {:induction false} ScoreFollowsRanks(sources: seq<seq<Ranked>>, a: Text, b: Text)
    requires forall hits <- sources :: Distinct(hits) && NoWorse(hits, a, b)
    ensures Score(sources, a) >= Score(sources, b)
    ensures (exists hits <- sources :: RanksBefore(hits, a, b)) ==> Score(sources, a) > Score(sources, b)
    decreases |sources|
  {
    hide Distinct, NoWorse, RanksBefore, Share;
    if sources != [] {
      var front, last := sources[..|sources| - 1], sources[|sources| - 1];
      assert last in sources && forall hits <- front :: hits in sources;
      ScoreFollowsRanks(front, a, b);
      ShareFollowsRank(last, a, b);
      if hits :| hits in sources && RanksBefore(hits, a, b) {
        assert hits in front || hits == last;
      }
    }
  }

  lemma RankingsAreDistinct(streams: seq<seq<Posting>>, depth: nat)
    ensures forall hits <- Rankings(streams, depth) :: Distinct(hits)
  {
    forall hits <- Rankings(streams, depth)
      ensures Distinct(hits)
    {
      var i :| 0 <= i < |streams| && hits == Rankings(streams, depth)[i];
      ScanIsRanked(streams[i], depth);
    }
  }

  /** Session a is ranked no worse than b by the scan of every literal, and better by one. */
  ghost predicate Dominates(sources: seq<seq<Ranked>>, a: Text, b: Text) {
    (forall hits <- sources :: NoWorse(hits, a, b)) && exists hits <- sources :: RanksBefore(hits, a, b)
  }

  lemma DominantIsPresent(sources: seq<seq<Ranked>>, a: Text, b: Text)
    requires Dominates(sources, a, b)
    ensures a in AllSessions(sources)
  {
    var i :| 0 <= i < |sources| && RanksBefore(sources[i], a, b);
    var better: nat :| Ranks(sources[i], a, better);
    var j :| 0 <= j < |sources[i]| && sources[i][j].posting.sessionId == a;
    assert sources[i][j].posting.sessionId in AllSessions(sources);
  }

  /** What is ahead of a listed session is listed before it. */
  lemma AheadIsBefore(ids: seq<Text>, all: set<Text>, score: map<Text, real>, k: nat, a: Text, n: nat)
    requires IsTop(ids, all, score, k) && n < |ids| && a in all && score[a] > score[ids[n]]
    ensures exists m :: 0 <= m < n && ids[m] == a
  {
    if a !in ids {
      assert false;
    }
  }

  lemma DominantInTop(ids: seq<Text>, sources: seq<seq<Ranked>>, limit: nat, a: Text, n: nat)
    requires IsTop(ids, AllSessions(sources), ScoreTable(sources), limit) && n < |ids|
    requires (forall hits <- sources :: Distinct(hits)) && Dominates(sources, a, ids[n])
    ensures exists m :: 0 <= m < n && ids[m] == a
  {
    ScoreFollowsRanks(sources, a, ids[n]);
    DominantIsPresent(sources, a, ids[n]);
    TopIsPresent(ids, AllSessions(sources), ScoreTable(sources), limit);
    hide Dominates, Distinct, AllSessions, Score, IsTop;
    AheadIsBefore(ids, AllSessions(sources), ScoreTable(sources), limit, a, n);
  }

  /**
   In the answer of the session index, a session that some other one dominates in the scans comes
   after it, and is never there without it.
   */
  lemma DominantComesFirst(streams: seq<seq<Posting>>, depth: nat, limit: nat, fused: seq<Fused>, truncated: bool, a: Text, n: nat)
    requires IndexAnswer(streams, depth, limit, fused, truncated) && n < |fused|
    requires Dominates(Rankings(streams, depth), a, fused[n].sessionId)
    ensures exists m :: 0 <= m < n && fused[m].sessionId == a
  {
    RankingsAreDistinct(streams, depth);
    hide Dominates, Distinct, IsTop;
    DominantInTop(Ids(fused), Rankings(streams, depth), limit, a, n);
    var m :| 0 <= m < n && Ids(fused)[m] == a;
    assert fused[m].sessionId == a;
  }

  /** So it does in the answer of the conversation view. */
  lemma DominantComesFirstInView(streams: seq<seq<Posting>>, limit: nat, results: seq<Result>, truncated: bool, a: Text, n: nat)
    requires ViewAnswer(streams, limit, results, truncated) && n < |results|
    requires Dominates(Rankings(streams, MAX_DEPTH), a, results[n].sessionId)
    ensures exists m :: 0 <= m < n && results[m].sessionId == a
  {
    RankingsAreDistinct(streams, MAX_DEPTH);
    hide Dominates, Distinct, IsTop, Describes;
    DominantInTop(ResultIds(results), Rankings(streams, MAX_DEPTH), limit, a, n);
    var m :| 0 <= m < n && ResultIds(results)[m] == a;
    assert results[m].sessionId == a;
  }

  // ---------- One literal ----------

  lemma OneSourceDominates(rows: seq<Posting>, i: nat, j: nat)
    requires i < j < |rows| && Distinct(WithRanks(rows))
    ensures Dominates([WithRanks(rows)], rows[i].sessionId, rows[j].sessionId)
  {
    var hits := WithRanks(rows);
    assert hits[i] in hits && Ranks(hits, rows[i].sessionId, i + 1);
    forall rank: nat | Ranks(hits, rows[j].sessionId, rank)
      ensures rank == j + 1
    {
      var k :| 0 <= k < |hits| && hits[k].posting.sessionId == rows[j].sessionId && hits[k].rank == rank;
      assert hits[j].posting.sessionId == hits[k].posting.sessionId;
    }
    hide Ranks;
    assert NoWorse(hits, rows[i].sessionId, rows[j].sessionId);
    assert RanksBefore(hits, rows[i].sessionId, rows[j].sessionId);
    assert hits in [hits];
  }

  lemma OneSourceSessions(rows: seq<Posting>)
    ensures AllSessions([WithRanks(rows)]) == set row <- rows :: row.sessionId
    ensures Distinct(WithRanks(rows)) ==> |AllSessions([WithRanks(rows)])| == |rows|
  {
    var sources := [WithRanks(rows)];
    forall s
      ensures s in AllSessions(sources) <==> s in set row <- rows :: row.sessionId
    {
      if row :| row in rows && row.sessionId == s {
        var j :| 0 <= j < |rows| && rows[j] == row;
        assert sources[0][j].posting.sessionId == s;
      }
    }
    if Distinct(WithRanks(rows)) {
      assert forall i, j :: 0 <= i < j < |rows| ==> WithRanks(rows)[i].posting.sessionId != WithRanks(rows)[j].posting.sessionId;
      CountDistinct(rows);
    }
  }

  lemma {:induction false} CountDistinct(rows: seq<Posting>)
    requires forall i, j :: 0 <= i < j < |rows| ==> rows[i].sessionId != rows[j].sessionId
    ensures |set row <- rows :: row.sessionId| == |rows|
    decreases |rows|
  {
    if rows != [] {
      var front, last := rows[..|rows| - 1], rows[|rows| - 1];
      CountDistinct(front);
      assert rows == front + [last];
      assert (set row <- rows :: row.sessionId) == (set row <- front :: row.sessionId) + {last.sessionId};
      assert last.sessionId !in set row <- front :: row.sessionId;
    }
  }

  function SessionIds(rows: seq<Posting>): seq<Text> {
    seq(|rows|, i requires 0 <= i < |rows| => rows[i].sessionId)
  }

  /** Rows of falling scores, one a session, are already in result order. */
  lemma FallingIsTop(rows: seq<Posting>, all: set<Text>, score: map<Text, real>, limit: nat)
    requires score.Keys == all && |all| == |rows|
    requires forall s :: s in all <==> exists i :: 0 <= i < |rows| && rows[i].sessionId == s
    requires forall i :: 0 <= i < |rows| ==> rows[i].sessionId in score
    requires forall i, j :: 0 <= i < j < |rows| ==> score[rows[i].sessionId] > score[rows[j].sessionId]
    ensures IsTop(SessionIds(Take(rows, limit)), all, score, limit)
  {
    hide Less;
    var ids := SessionIds(Take(rows, limit));
    assert forall i :: 0 <= i < |ids| ==> ids[i] == rows[i].sessionId;
    assert Ordered(ids, score);
    forall i, other | 0 <= i < |ids| && other in all && other !in ids
      ensures Ahead(score, ids[i], other)
    {
      var j :| 0 <= j < |rows| && rows[j].sessionId == other;
      assert forall m :: 0 <= m < |ids| ==> rows[m].sessionId in ids;
      assert j >= |ids|;
    }
  }

  lemma OneLiteralTop(rows: seq<Posting>, limit: nat)
    requires Distinct(WithRanks(rows))
    ensures IsTop(SessionIds(Take(rows, limit)), AllSessions([WithRanks(rows)]), ScoreTable([WithRanks(rows)]), limit)
  {
    var sources := [WithRanks(rows)];
    OneSourceSessions(rows);
    forall i, j | 0 <= i < j < |rows|
      ensures Score(sources, rows[i].sessionId) > Score(sources, rows[j].sessionId)
    {
      OneSourceDominates(rows, i, j);
      ScoreFollowsRanks(sources, rows[i].sessionId, rows[j].sessionId);
    }
    hide AllSessions, Score, Distinct, IsTop;
    FallingIsTop(rows, AllSessions(sources), ScoreTable(sources), limit);
  }

  /** For one literal the answer lists the sessions as the scan ranks them, up to the limit. */
  lemma OneLiteralKeepsScanOrder(stream: seq<Posting>, depth: nat, limit: nat, fused: seq<Fused>, truncated: bool)
    requires IndexAnswer([stream], depth, limit, fused, truncated)
    ensures Ids(fused) == SessionIds(Take(ScanRows(stream, depth), limit))
    ensures truncated <==> |ScanRows(stream, depth)| > limit
  {
    var sources := Rankings([stream], depth);
    RankingsAreDistinct([stream], depth);
    assert sources[0] in sources && sources == [WithRanks(ScanRows(stream, depth))];
    hide IsTop, WithRanks, ScanRows, Distinct;
    OneLiteralTop(ScanRows(stream, depth), limit);
    OneSourceSessions(ScanRows(stream, depth));
    TopIsUnique(Ids(fused), SessionIds(Take(ScanRows(stream, depth), limit)), AllSessions(sources), ScoreTable(sources), limit);
  }

  /** So does the answer of the conversation view. */
  lemma OneLiteralKeepsScanOrderInView(stream: seq<Posting>, limit: nat, results: seq<Result>, truncated: bool)
    requires ViewAnswer([stream], limit, results, truncated)
    ensures ResultIds(results) == SessionIds(Take(ScanRows(stream, MAX_DEPTH), limit))
  {
    var sources := Rankings([stream], MAX_DEPTH);
    RankingsAreDistinct([stream], MAX_DEPTH);
    assert sources[0] in sources && sources == [WithRanks(ScanRows(stream, MAX_DEPTH))];
    hide IsTop, WithRanks, ScanRows, Distinct, Describes;
    OneLiteralTop(ScanRows(stream, MAX_DEPTH), limit);
    TopIsUnique(ResultIds(results), SessionIds(Take(ScanRows(stream, MAX_DEPTH), limit)), AllSessions(sources), ScoreTable(sources), limit);
  }

  // ---------- What an answer says of a session ----------

  /** Answers are listed by falling score, equal scores by the smaller session id. */
  lemma AnswerIsOrdered(streams: seq<seq<Posting>>, depth: nat, limit: nat, fused: seq<Fused>, truncated: bool, i: nat, j: nat)
    requires IndexAnswer(streams, depth, limit, fused, truncated) && i < j < |fused|
    ensures fused[i].score > fused[j].score || (fused[i].score == fused[j].score && Less(fused[i].sessionId, fused[j].sessionId))
  {
    var ids, score := Ids(fused), ScoreTable(Rankings(streams, depth));
    assert Ahead(score, ids[i], ids[j]);
    hide IsTop, AllSessions, Score;
  }

  lemma {:induction false} PartsAreHits(ordinal: nat, hits: seq<Ranked>, s: Text)
    ensures forall part :: part in PartsOf(ordinal, hits, s) <==>
              part.ordinal == ordinal && part.posting.sessionId == s && Ranked(part.rank, part.posting) in hits
    decreases |hits|
  {
    if hits != [] {
      var front, last := hits[..|hits| - 1], hits[|hits| - 1];
      PartsAreHits(ordinal, front, s);
      assert hits == front + [last];
    }
  }

  /** The parts of a session are the hits of its rows, each with the number of its literal. */
  lemma {:induction false} AllPartsAreHits(sources: seq<seq<Ranked>>, s: Text)
    ensures forall part :: part in AllParts(sources, s) <==>
              part.posting.sessionId == s && part.ordinal < |sources| && Ranked(part.rank, part.posting) in sources[part.ordinal]
    decreases |sources|
  {
    if sources != [] {
      AllPartsAreHits(sources[..|sources| - 1], s);
      PartsAreHits(|sources| - 1, sources[|sources| - 1], s);
    }
  }

  /**
   An answer of the conversation view names the literals whose scans rank the session, and as
   evidence one of its hits: none has a smaller rank, none of that rank an earlier literal, and none
   of both a smaller sequence number.
   */
  lemma ViewAnswerExplained(streams: seq<seq<Posting>>, limit: nat, results: seq<Result>, truncated: bool, i: nat)
    requires ViewAnswer(streams, limit, results, truncated) && i < |results|
    ensures var r, sources := results[i], Rankings(streams, MAX_DEPTH);
            && (forall n: nat :: n in r.matches <==> n < |sources| && r.sessionId in SessionsIn(sources[n]))
            && IsHit(sources, r.evidence, r.sessionId)
            && forall part :: IsHit(sources, part, r.sessionId) ==>
                 r.evidence.rank <= part.rank
                 && (r.evidence.rank == part.rank ==>
                       r.evidence.ordinal <= part.ordinal
                       && (r.evidence.ordinal == part.ordinal ==> r.evidence.posting.seqNo <= part.posting.seqNo))
  {
    var r, sources := results[i], Rankings(streams, MAX_DEPTH);
    assert Describes(r, i + 1, sources);
    AllPartsAreHits(sources, r.sessionId);
    hide IsTop, ScoreTable, AllSessions, Score, AllParts;
    forall n: nat
      ensures n in r.matches <==> n < |sources| && r.sessionId in SessionsIn(sources[n])
    {
      if n < |sources| {
        if r.sessionId in SessionsIn(sources[n]) {
          var hit: Ranked :| hit in sources[n] && hit.posting.sessionId == r.sessionId;
          assert Part(n, hit.rank, hit.posting) in AllParts(sources, r.sessionId);
        }
      }
    }
  }

  /** The part is a hit of the session in the scan of its literal. */
  predicate IsHit(sources: seq<seq<Ranked>>, part: Part, s: Text) {
    part.posting.sessionId == s && part.ordinal < |sources| && Ranked(part.rank, part.posting) in sources[part.ordinal]
  }
}
