/**
 The selection itself: counting the support of all pairs in one pass, gating, ranking and
 picking, proved equal to gating every pair directly.
 */
module HistorySelector {
  import opened Wrappers
  import opened Texts
  import opened Sorting
  import opened SortedTexts
  import opened History

  // ---------- All pairs of one pass ----------

  function Observation(s: seq<Path>, a: nat, b: nat, dir: Directory): multiset<Pair>
    requires a < |s| && b < |s|
  {
    if dir(s[a]) == dir(s[b]) then multiset{} else multiset{Pair(s[a], s[b])}
  }

  /** The observations of s[a] with the paths after it and before position j. */
  function RowPairs(s: seq<Path>, a: nat, j: nat, dir: Directory): multiset<Pair>
    requires a < j <= |s|
    decreases j
  {
    if j == a + 1 then multiset{} else RowPairs(s, a, j - 1, dir) + Observation(s, a, j - 1, dir)
  }

  function PairsUpTo(s: seq<Path>, i: nat, dir: Directory): multiset<Pair>
    requires i <= |s|
    decreases i
  {
    if i == 0 then multiset{} else PairsUpTo(s, i - 1, dir) + RowPairs(s, i - 1, |s|, dir)
  }

  function EventPairs(e: Event, dir: Directory): multiset<Pair> {
    PairsUpTo(Arranged(e), |Arranged(e)|, dir)
  }

  function AllPairs(events: seq<Event>, dir: Directory): multiset<Pair>
    decreases |events|
  {
    if events == [] then multiset{} else AllPairs(events[..|events| - 1], dir) + EventPairs(events[|events| - 1], dir)
  }

  /** pairKey: the two paths with a NUL between them. */
  function PairKey(pair: Pair): Text {
    pair.left + [0] + pair.right
  }

  /** Paths hold no NUL, so counting by key is counting by pair. */
  lemma PairKeyIsInjective(a: Pair, b: Pair)
    requires 0 !in a.left && 0 !in b.left && PairKey(a) == PairKey(b)
    ensures a == b
  {
    SeparatorSplits(0, a.left, a.right, b.left, b.right);
  }

  // ---------- Counted at once, counted directly ----------

  lemma {:induction false} RowCount(s: seq<Path>, a: nat, j: nat, dir: Directory, p: Path, q: Path)
    requires a < j <= |s| && Ascending(s) && dir(p) != dir(q)
    ensures RowPairs(s, a, j, dir)[Pair(p, q)] == if s[a] == p && InSlice(s, a + 1, j, q) then 1 else 0
    decreases j
  {
    if j > a + 1 {
      RowCount(s, a, j - 1, dir, p, q);
      LastOfSlice(s, a + 1, j, q);
      hide Less;
    }
  }

  ghost predicate InSlice(s: seq<Path>, i: nat, j: nat, p: Path)
    requires j <= |s|
  {
    exists b :: i <= b < j && s[b] == p
  }

  lemma EmptySlice(s: seq<Path>, p: Path)
    ensures !InSlice(s, 0, 0, p)
  {
  }

  lemma PairsUpToCounts(s: seq<Path>, i: nat, dir: Directory, pair: Pair)
    requires i <= |s|
    ensures PairsUpTo(s, i, dir)[pair] == if i == 0 then 0 else PairsUpTo(s, i - 1, dir)[pair] + RowPairs(s, i - 1, |s|, dir)[pair]
  {
    hide RowPairs;
  }

  lemma LastOfSlice(s: seq<Path>, i: nat, j: nat, p: Path)
    requires i < j <= |s| && Ascending(s)
    ensures InSlice(s, i, j, p) <==> InSlice(s, i, j - 1, p) || s[j - 1] == p
    ensures InSlice(s, i, j - 1, p) ==> s[j - 1] != p
  {
    if InSlice(s, i, j - 1, p) {
      var b :| i <= b < j - 1 && s[b] == p;
      LessIsTotal(s[b], s[j - 1]);
    }
    hide Less;
  }

  lemma {:induction false} PairCount(s: seq<Path>, i: nat, dir: Directory, p: Path, q: Path)
    requires i <= |s| && Ascending(s) && dir(p) != dir(q)
    ensures PairsUpTo(s, i, dir)[Pair(p, q)] == if InSlice(s, 0, i, p) && q in s && Less(p, q) then 1 else 0
    decreases i
  {
    hide Less, RowPairs, InSlice, Ascending, PairsUpTo;
    PairsUpToCounts(s, i, dir, Pair(p, q));
    if i == 0 {
      EmptySlice(s, p);
    } else {
      PairCount(s, i - 1, dir, p, q);
      RowCount(s, i - 1, |s|, dir, p, q);
      LastOfSlice(s, 0, i, p);
      if s[i - 1] == p {
        LaterMeansGreater(s, i - 1, q);
      }
    }
  }

  lemma LaterMeansGreater(s: seq<Path>, a: nat, q: Path)
    requires a < |s| && Ascending(s)
    ensures InSlice(s, a + 1, |s|, q) <==> q in s && Less(s[a], q)
  {
    if q in s {
      var b :| 0 <= b < |s| && s[b] == q;
      LessIsTotal(s[a], s[b]);
      assert b > a ==> InSlice(s, a + 1, |s|, q);
    }
    hide Less;
  }

  /** An event without duplicates supports a pair once if it touches both, and not otherwise. */
  lemma EventCount(e: Event, dir: Directory, p: Path, q: Path)
    requires DuplicateFree(e) && dir(p) != dir(q)
    ensures EventPairs(e, dir)[Pair(p, q)] == if Has(e, p) && Has(e, q) && Less(p, q) then 1 else 0
  {
    var s := Arranged(e);
    ArrangedMeaning(e);
    PairCount(s, |s|, dir, p, q);
    assert InSlice(s, 0, |s|, p) <==> p in s;
  }

  /** The incremental support of a pair is its direct shared count. */
  lemma {:induction false} SupportIsShared(events: seq<Event>, dir: Directory, p: Path, q: Path)
    requires (forall e <- events :: DuplicateFree(e)) && dir(p) != dir(q) && Less(p, q)
    ensures AllPairs(events, dir)[Pair(p, q)] == Both(events, p, q)
    decreases |events|
  {
    if events != [] {
      SupportIsShared(events[..|events| - 1], dir, p, q);
      EventCount(events[|events| - 1], dir, p, q);
      hide EventPairs, Has, Less, DuplicateFree;
    }
  }

  /** Only ordered pairs across directories are ever observed. */
  lemma {:induction false} RowPairsCross(s: seq<Path>, a: nat, j: nat, dir: Directory, pair: Pair)
    requires a < j <= |s| && Ascending(s) && pair in RowPairs(s, a, j, dir)
    ensures dir(pair.left) != dir(pair.right) && Less(pair.left, pair.right)
    decreases j
  {
    hide Less;
    if j > a + 1 && pair in RowPairs(s, a, j - 1, dir) {
      RowPairsCross(s, a, j - 1, dir, pair);
    }
  }

  lemma {:induction false} PairsCross(s: seq<Path>, i: nat, dir: Directory, pair: Pair)
    requires i <= |s| && Ascending(s) && pair in PairsUpTo(s, i, dir)
    ensures dir(pair.left) != dir(pair.right) && Less(pair.left, pair.right)
    decreases i
  {
    hide Less, RowPairs;
    if pair in PairsUpTo(s, i - 1, dir) {
      PairsCross(s, i - 1, dir, pair);
    } else {
      RowPairsCross(s, i - 1, |s|, dir, pair);
    }
  }

  lemma {:induction false} AllPairsCross(events: seq<Event>, dir: Directory, pair: Pair)
    requires (forall e <- events :: DuplicateFree(e)) && pair in AllPairs(events, dir)
    ensures dir(pair.left) != dir(pair.right) && Less(pair.left, pair.right)
    decreases |events|
  {
    var front, e := events[..|events| - 1], events[|events| - 1];
    if pair in AllPairs(front, dir) {
      AllPairsCross(front, dir, pair);
    } else {
      ArrangedMeaning(e);
      PairsCross(Arranged(e), |Arranged(e)|, dir, pair);
    }
  }

  // ---------- Picking ----------

  predicate SharesPath(a: Candidate, b: Candidate) {
    a.pair.left == b.pair.left || a.pair.left == b.pair.right || a.pair.right == b.pair.left || a.pair.right == b.pair.right
  }

  predicate SharesWith(c: Candidate, picks: seq<Candidate>) {
    exists i :: 0 <= i < |picks| && SharesPath(c, picks[i])
  }

  /** From the best on, whatever shares no path with a pick, up to the limit. */
  function Picks(ranked: seq<Candidate>): seq<Candidate>
    decreases |ranked|
  {
    if ranked == [] then []
    else
      var before, c := Picks(ranked[..|ranked| - 1]), ranked[|ranked| - 1];
      if |before| == OUTPUT_CANDIDATES || SharesWith(c, before) then before else before + [c]
  }

  lemma {:induction false} PicksGrow(ranked: seq<Candidate>, n: nat)
    requires n <= |ranked|
    ensures Picks(ranked[..n]) <= Picks(ranked)
    decreases |ranked|
  {
    if n < |ranked| {
      assert ranked[..|ranked| - 1][..n] == ranked[..n];
      PicksGrow(ranked[..|ranked| - 1], n);
    } else {
      assert ranked[..n] == ranked;
    }
  }

  /** At most four picks, no two of which share a path. */
  lemma {:induction false} PicksAreDisjoint(ranked: seq<Candidate>)
    ensures |Picks(ranked)| <= OUTPUT_CANDIDATES
    ensures forall i, j :: 0 <= i < j < |Picks(ranked)| ==> !SharesPath(Picks(ranked)[j], Picks(ranked)[i])
    ensures forall c <- Picks(ranked) :: c in ranked
    decreases |ranked|
  {
    if ranked != [] {
      PicksAreDisjoint(ranked[..|ranked| - 1]);
      hide SharesPath;
      assert forall c <- ranked[..|ranked| - 1] :: c in ranked;
    }
  }

  /** A candidate is passed over only for a better pick that shares a path with it, or after four better picks. */
  lemma PassedOver(ranked: seq<Candidate>, n: nat)
    requires n < |ranked|
    ensures ranked[n] in Picks(ranked) || SharesWith(ranked[n], Picks(ranked[..n])) || |Picks(ranked[..n])| == OUTPUT_CANDIDATES
    ensures Picks(ranked[..n]) <= Picks(ranked) && forall c <- Picks(ranked[..n]) :: c in ranked[..n]
  {
    PicksGrow(ranked, n);
    PicksGrow(ranked, n + 1);
    PicksAreDisjoint(ranked[..n]);
    assert ranked[..n + 1][..n] == ranked[..n];
    if |Picks(ranked[..n])| != OUTPUT_CANDIDATES && !SharesWith(ranked[n], Picks(ranked[..n])) {
      assert Picks(ranked[..n + 1]) == Picks(ranked[..n]) + [ranked[n]];
      assert Picks(ranked[..n + 1])[|Picks(ranked[..n])|] == ranked[n];
    }
  }

  function PathsOf(picks: seq<Candidate>): set<Path>
    decreases |picks|
  {
    if picks == [] then {} else PathsOf(picks[..|picks| - 1]) + {picks[|picks| - 1].pair.left, picks[|picks| - 1].pair.right}
  }

  lemma {:induction false} UsedMeansShared(picks: seq<Candidate>, c: Candidate)
    ensures SharesWith(c, picks) <==> c.pair.left in PathsOf(picks) || c.pair.right in PathsOf(picks)
    decreases |picks|
  {
    if picks != [] {
      var front, last := picks[..|picks| - 1], picks[|picks| - 1];
      UsedMeansShared(front, c);
      if SharesWith(c, picks) && !SharesPath(c, last) {
        var i :| 0 <= i < |picks| && SharesPath(c, picks[i]);
        assert SharesPath(c, front[i]);
      }
      if SharesWith(c, front) {
        var i :| 0 <= i < |front| && SharesPath(c, front[i]);
        assert SharesPath(c, picks[i]);
      }
      if SharesPath(c, last) {
        assert SharesPath(c, picks[|picks| - 1]);
      }
    }
  }

  // ---------- The specification: every pair, directly ----------

  /** c is the statistics of a pair across directories, and clears the gates. */
  ghost predicate Qualifies(events: seq<Event>, mode: Mode, dir: Directory, c: Candidate) {
    && Less(c.pair.left, c.pair.right) && dir(c.pair.left) != dir(c.pair.right)
    && c == StatisticsForPair(events, c.pair, mode, Both(events, c.pair.left, c.pair.right))
    && ClearsGates(c)
  }

  /** All qualifying pairs, once each, in the order of the comparison. */
  ghost predicate RankedBruteForce(events: seq<Event>, mode: Mode, dir: Directory, ranked: seq<Candidate>) {
    && (forall c :: c in ranked <==> Qualifies(events, mode, dir, c))
    && (forall i, j :: 0 <= i < j < |ranked| ==> Precedes(ranked[i], ranked[j]))
  }

  lemma QualifiedAreStrict(events: seq<Event>, mode: Mode, dir: Directory, a: Candidate, b: Candidate, c: Candidate)
    requires Qualifies(events, mode, dir, a) && Qualifies(events, mode, dir, b) && Qualifies(events, mode, dir, c)
    ensures Precedes(a, b) ==> !Precedes(b, a)
    ensures Precedes(a, b) && Precedes(b, c) ==> Precedes(a, c)
    ensures a == b || Precedes(a, b) || Precedes(b, a)
  {
    PrecedesIsStrict(a, b, c);
    hide Precedes, StatisticsForPair;
  }

  /** The ranking is unique: it does not depend on the order in which pairs were found. */
  lemma {:induction false} RankingIsUnique(events: seq<Event>, mode: Mode, dir: Directory, a: seq<Candidate>, b: seq<Candidate>)
    requires RankedBruteForce(events, mode, dir, a) && RankedBruteForce(events, mode, dir, b)
    ensures a == b
  {
    if |a| <= |b| {
      PrefixesAgree(events, mode, dir, a, b, |a|);
      NoMoreThan(events, mode, dir, a, b);
    } else {
      PrefixesAgree(events, mode, dir, b, a, |b|);
      NoMoreThan(events, mode, dir, b, a);
    }
  }

  lemma NoMoreThan(events: seq<Event>, mode: Mode, dir: Directory, a: seq<Candidate>, b: seq<Candidate>)
    requires RankedBruteForce(events, mode, dir, a) && RankedBruteForce(events, mode, dir, b)
    requires |a| <= |b| && b[..|a|] == a
    ensures a == b
  {
    if |a| < |b| {
      hide Precedes, Qualifies;
      assert b[|a|] in b && b[|a|] in a;
      var i :| 0 <= i < |a| && a[i] == b[|a|];
      assert b[i] == b[..|a|][i] && Precedes(b[i], b[|a|]);
      QualifiedAreStrict(events, mode, dir, b[i], b[i], b[i]);
    }
  }

  lemma {:induction false} PrefixesAgree(events: seq<Event>, mode: Mode, dir: Directory, a: seq<Candidate>, b: seq<Candidate>, n: nat)
    requires RankedBruteForce(events, mode, dir, a) && RankedBruteForce(events, mode, dir, b) && n <= |a| <= |b|
    ensures a[..n] == b[..n]
    decreases n
  {
    if n > 0 {
      PrefixesAgree(events, mode, dir, a, b, n - 1);
      hide Precedes, Qualifies;
      NextIsNotAfter(events, mode, dir, a, b, n - 1);
      NextIsNotAfter(events, mode, dir, b, a, n - 1);
      assert a[n - 1] in a && b[n - 1] in b;
      QualifiedAreStrict(events, mode, dir, a[n - 1], b[n - 1], a[n - 1]);
      assert a[..n] == a[..n - 1] + [a[n - 1]] && b[..n] == b[..n - 1] + [b[n - 1]];
    }
  }

  lemma NextIsNotAfter(events: seq<Event>, mode: Mode, dir: Directory, a: seq<Candidate>, b: seq<Candidate>, n: nat)
    requires RankedBruteForce(events, mode, dir, a) && RankedBruteForce(events, mode, dir, b)
    requires n < |a| && n < |b| && a[..n] == b[..n]
    ensures !Precedes(b[n], a[n])
  {
    hide Precedes, Qualifies;
    assert b[n] in b && b[n] in a;
    var j :| 0 <= j < |a| && a[j] == b[n];
    if j < n {
      assert b[j] == a[..n][j] == a[j];
      QualifiedAreStrict(events, mode, dir, b[n], b[n], b[n]);
    } else if j > n {
      assert a[n] in a;
      assert Precedes(a[n], a[j]);
      QualifiedAreStrict(events, mode, dir, a[n], b[n], a[n]);
    } else {
      QualifiedAreStrict(events, mode, dir, b[n], b[n], b[n]);
    }
  }

  // ---------- selectScopeCandidates ----------

  datatype Selection =
    | Abstained(pairObservations: nat)
    | Selected(pairObservations: nat, qualifiedPairs: nat, candidates: seq<Candidate>)

  /** The map of supports holds exactly the observed pairs, each with its multiplicity. */
  ghost predicate Supports(support: map<Pair, nat>, seen: multiset<Pair>) {
    forall pair :: (pair in support <==> pair in seen) && (pair in support ==> support[pair] == seen[pair])
  }

  /** The loop over events and their pairs; it stops at the observation limit. */
  method CountSupport(events: seq<Event>, dir: Directory) returns (r: Option<map<Pair, nat>>, observations: nat)
    ensures r.None? <==> |AllPairs(events, dir)| > MAX_PAIR_OBSERVATIONS
    ensures r.None? ==> observations == MAX_PAIR_OBSERVATIONS + 1
    ensures r.Some? ==> observations == |AllPairs(events, dir)| && Supports(r.value, AllPairs(events, dir))
  {
    hide AllPairs, EventPairs, PairsUpTo, RowPairs, Arranged, Supports;
    var support: map<Pair, nat> := map[];
    observations := 0;
    NothingObserved(events, dir);
    for n := 0 to |events|
      invariant Supports(support, AllPairs(events[..n], dir)) && observations == |AllPairs(events[..n], dir)| <= MAX_PAIR_OBSERVATIONS
    {
      var paths := Arranged(events[n]);
      ghost var before := AllPairs(events[..n], dir);
      NoPairsYet(before, paths, dir);
      for left := 0 to |paths|
        invariant Supports(support, before + PairsUpTo(paths, left, dir))
        invariant observations == |before + PairsUpTo(paths, left, dir)| <= MAX_PAIR_OBSERVATIONS
      {
        ghost var upTo := before + PairsUpTo(paths, left, dir);
        NoRowYet(upTo, paths, left, dir);
        for right := left + 1 to |paths|
          invariant Supports(support, upTo + RowPairs(paths, left, right, dir))
          invariant observations == |upTo + RowPairs(paths, left, right, dir)| <= MAX_PAIR_OBSERVATIONS
        {
          ghost var now := upTo + RowPairs(paths, left, right, dir);
          RowStep(upTo, paths, left, right, dir);
          if dir(paths[left]) == dir(paths[right]) {
            continue;
          }
          observations := observations + 1;
          var pair := Pair(paths[left], paths[right]);
          ObserveOne(support, now, pair);
          if observations > MAX_PAIR_OBSERVATIONS {
            TooMany(events, n, left, right, dir);
            return None, observations;
          }
          support := support[pair := if pair in support then support[pair] + 1 else 1];
        }
        RowDone(before, paths, left, dir);
      }
      EventDone(events, n, dir);
    }
    assert events[..|events|] == events;
    return Some(support), observations;
  }

  lemma NothingObserved(events: seq<Event>, dir: Directory)
    ensures Supports(map[], AllPairs(events[..0], dir)) && |AllPairs(events[..0], dir)| == 0
  {
  }

  lemma NoPairsYet(before: multiset<Pair>, s: seq<Path>, dir: Directory)
    ensures before + PairsUpTo(s, 0, dir) == before
  {
  }

  lemma NoRowYet(upTo: multiset<Pair>, s: seq<Path>, a: nat, dir: Directory)
    requires a < |s|
    ensures upTo + RowPairs(s, a, a + 1, dir) == upTo
  {
  }

  lemma RowStep(upTo: multiset<Pair>, s: seq<Path>, a: nat, b: nat, dir: Directory)
    requires a < b < |s|
    ensures upTo + RowPairs(s, a, b + 1, dir)
         == if dir(s[a]) == dir(s[b]) then upTo + RowPairs(s, a, b, dir) else upTo + RowPairs(s, a, b, dir) + multiset{Pair(s[a], s[b])}
  {
  }

  lemma ObserveOne(support: map<Pair, nat>, seen: multiset<Pair>, pair: Pair)
    requires Supports(support, seen)
    ensures Supports(support[pair := if pair in support then support[pair] + 1 else 1], seen + multiset{pair})
    ensures |seen + multiset{pair}| == |seen| + 1
  {
  }

  lemma RowDone(before: multiset<Pair>, s: seq<Path>, a: nat, dir: Directory)
    requires a < |s|
    ensures before + PairsUpTo(s, a, dir) + RowPairs(s, a, |s|, dir) == before + PairsUpTo(s, a + 1, dir)
  {
  }

  lemma EventDone(events: seq<Event>, n: nat, dir: Directory)
    requires n < |events|
    ensures AllPairs(events[..n], dir) + PairsUpTo(Arranged(events[n]), |Arranged(events[n])|, dir) == AllPairs(events[..n + 1], dir)
  {
    assert events[..n + 1][..n] == events[..n];
  }

  lemma {:induction false} AllPairsGrow(events: seq<Event>, n: nat, dir: Directory)
    requires n <= |events|
    ensures |AllPairs(events[..n], dir)| <= |AllPairs(events, dir)|
    decreases |events|
  {
    if n < |events| {
      assert events[..|events| - 1][..n] == events[..n];
      AllPairsGrow(events[..|events| - 1], n, dir);
    } else {
      assert events[..n] == events;
    }
  }

  lemma {:induction false} PairsGrow(s: seq<Path>, i: nat, dir: Directory, n: nat)
    requires i <= n <= |s|
    ensures |PairsUpTo(s, i, dir)| <= |PairsUpTo(s, n, dir)|
    decreases n
  {
    hide RowPairs;
    if i < n {
      PairsGrow(s, i, dir, n - 1);
    }
  }

  lemma {:induction false} RowGrows(s: seq<Path>, a: nat, j: nat, dir: Directory, n: nat)
    requires a < j <= n <= |s|
    ensures |RowPairs(s, a, j, dir)| <= |RowPairs(s, a, n, dir)|
    decreases n
  {
    if j < n {
      RowGrows(s, a, j, dir, n - 1);
    }
  }

  lemma SizesAdd(a: multiset<Pair>, b: multiset<Pair>, c: multiset<Pair>)
    ensures |a + b + c| == |a| + |b| + |c| && |a + b| == |a| + |b|
  {
  }

  lemma WithinRow(before: multiset<Pair>, s: seq<Path>, left: nat, right: nat, dir: Directory)
    requires left < right < |s|
    ensures |before + PairsUpTo(s, left, dir) + RowPairs(s, left, right + 1, dir)| <= |before + PairsUpTo(s, left + 1, dir)|
  {
    hide RowPairs, PairsUpTo;
    RowGrows(s, left, right + 1, dir, |s|);
    RowDone(before, s, left, dir);
    SizesAdd(before, PairsUpTo(s, left, dir), RowPairs(s, left, right + 1, dir));
    SizesAdd(before, PairsUpTo(s, left, dir), RowPairs(s, left, |s|, dir));
  }

  lemma WithinEvent(before: multiset<Pair>, s: seq<Path>, i: nat, dir: Directory)
    requires i <= |s|
    ensures |before + PairsUpTo(s, i, dir)| <= |before + PairsUpTo(s, |s|, dir)|
  {
    hide RowPairs, PairsUpTo;
    PairsGrow(s, i, dir, |s|);
  }

  /** What was observed up to one pair is part of what the whole pass observes. */
  lemma TooMany(events: seq<Event>, n: nat, left: nat, right: nat, dir: Directory)
    requires n < |events| && left < right < |Arranged(events[n])|
    ensures var s := Arranged(events[n]);
            |AllPairs(events[..n], dir) + PairsUpTo(s, left, dir) + RowPairs(s, left, right + 1, dir)| <= |AllPairs(events, dir)|
  {
    hide AllPairs, PairsUpTo, RowPairs, Arranged;
    var s, before := Arranged(events[n]), AllPairs(events[..n], dir);
    WithinRow(before, s, left, right, dir);
    WithinEvent(before, s, left + 1, dir);
    EventDone(events, n, dir);
    AllPairsGrow(events, n + 1, dir);
  }

  // ---------- Gating and ranking ----------

  /** The candidates of those of the pairs done that pass the prefilter and the gates. */
  function Gated(events: seq<Event>, mode: Mode, support: map<Pair, nat>, done: set<Pair>): set<Candidate>
    requires done <= support.Keys
  {
    set pair | pair in done && Passes(events, mode, pair, support[pair]) :: StatisticsForPair(events, pair, mode, support[pair])
  }

  predicate Passes(events: seq<Event>, mode: Mode, pair: Pair, support: nat) {
    support >= MINIMUM_SHARED && ClearsGates(StatisticsForPair(events, pair, mode, support))
  }

  lemma GatedStep(events: seq<Event>, mode: Mode, support: map<Pair, nat>, done: set<Pair>, pair: Pair)
    requires done <= support.Keys && pair in support && pair !in done
    ensures var c := StatisticsForPair(events, pair, mode, support[pair]);
            && c !in Gated(events, mode, support, done)
            && Gated(events, mode, support, done + {pair})
               == Gated(events, mode, support, done) + if Passes(events, mode, pair, support[pair]) then {c} else {}
  {
    hide ClearsGates, Scope, Bands, TallyOf;
  }

  function Among(gated: set<Candidate>): Candidate -> bool {
    c => c in gated
  }

  function ByRank(): (Candidate, Candidate) -> bool {
    (a, b) => Precedes(a, b)
  }

  /** The gates applied to the incremental supports leave exactly the qualifying pairs. */
  lemma GatedIsBruteForce(events: seq<Event>, mode: Mode, dir: Directory, support: map<Pair, nat>, c: Candidate)
    requires (forall e <- events :: DuplicateFree(e)) && Supports(support, AllPairs(events, dir))
    ensures c in Gated(events, mode, support, support.Keys) <==> Qualifies(events, mode, dir, c)
  {
    hide AllPairs, StatisticsForPair, ClearsGates;
    var pair := c.pair;
    if pair in support {
      AllPairsCross(events, dir, pair);
    }
    if Less(pair.left, pair.right) && dir(pair.left) != dir(pair.right) {
      SupportIsShared(events, dir, pair.left, pair.right);
      if Qualifies(events, mode, dir, c) {
        PrefilterIsSafe(events, pair, mode);
      }
    }
    StatisticsKeepPair(events, mode, support);
  }

  lemma StatisticsKeepPair(events: seq<Event>, mode: Mode, support: map<Pair, nat>)
    ensures forall pair <- support :: StatisticsForPair(events, pair, mode, support[pair]).pair == pair
  {
    hide Scope, Bands, TallyOf;
  }

  lemma SortedRanking(events: seq<Event>, mode: Mode, dir: Directory, gated: set<Candidate>, listed: seq<Candidate>)
    requires multiset(listed) == multiset(gated) && forall c :: c in gated <==> Qualifies(events, mode, dir, c)
    ensures RankedBruteForce(events, mode, dir, Sort(listed, ByRank()))
  {
    hide Precedes, Qualifies, StrictOrder, Sorted;
    var ranked := Sort(listed, ByRank());
    SameMembers(listed, gated);
    SameMembers(ranked, gated);
    QualifiedOn(gated, events, mode, dir);
    SortSorts(listed, ByRank(), Among(gated));
    forall i, j | 0 <= i < j < |ranked|
      ensures Precedes(ranked[i], ranked[j])
    {
      SortedPair(ranked, i, j);
      OnceInRanking(gated, ranked, i, j);
      QualifiedAreStrict(events, mode, dir, ranked[i], ranked[j], ranked[i]);
    }
  }

  lemma SortedPair(ranked: seq<Candidate>, i: nat, j: nat)
    requires Sorted(ranked, ByRank()) && i < j < |ranked|
    ensures !Precedes(ranked[j], ranked[i])
  {
    assert !ByRank()(ranked[j], ranked[i]);
  }

  lemma SameMembers(listed: seq<Candidate>, gated: set<Candidate>)
    requires multiset(listed) == multiset(gated)
    ensures (forall c :: c in listed <==> c in gated) && AllOn(listed, Among(gated))
    ensures forall i :: 0 <= i < |listed| ==> listed[i] in gated
  {
    assert forall c :: c in listed <==> c in multiset(listed);
    assert forall i :: 0 <= i < |listed| ==> listed[i] in listed;
  }

  lemma OnceInRanking(gated: set<Candidate>, ranked: seq<Candidate>, i: nat, j: nat)
    requires multiset(ranked) == multiset(gated) && i < j < |ranked|
    ensures ranked[i] != ranked[j]
  {
    if ranked[i] == ranked[j] {
      RepeatedElement(ranked, i, j);
    }
  }

  lemma QualifiedOn(gated: set<Candidate>, events: seq<Event>, mode: Mode, dir: Directory)
    requires forall c :: c in gated <==> Qualifies(events, mode, dir, c)
    ensures StrictOrder(ByRank(), Among(gated))
  {
    hide Precedes, Qualifies;
    forall a, b, c | a in gated && b in gated && c in gated
      ensures Precedes(a, b) ==> !Precedes(b, a)
      ensures Precedes(a, b) && Precedes(b, c) ==> Precedes(a, c)
      ensures a == b || Precedes(a, b) || Precedes(b, a)
    {
      QualifiedAreStrict(events, mode, dir, a, b, c);
    }
    forall a, b | a in gated && b in gated
      ensures Precedes(a, b) ==> !Precedes(b, a)
      ensures a == b || Precedes(a, b) || Precedes(b, a)
    {
      QualifiedAreStrict(events, mode, dir, a, b, a);
    }
  }

  /** The loop that keeps what shares no path with a pick. */
  method PickDisjoint(ranked: seq<Candidate>) returns (candidates: seq<Candidate>)
    ensures candidates == Picks(ranked)
  {
    hide SharesWith;
    candidates := [];
    var usedPaths: set<Path> := {};
    for n := 0 to |ranked|
      invariant candidates == Picks(ranked[..n]) && |candidates| < OUTPUT_CANDIDATES
      invariant usedPaths == PathsOf(candidates)
    {
      var c := ranked[n];
      assert ranked[..n + 1][..n] == ranked[..n];
      UsedMeansShared(candidates, c);
      if c.pair.left in usedPaths || c.pair.right in usedPaths {
        continue;
      }
      assert (candidates + [c])[..|candidates|] == candidates;
      candidates := candidates + [c];
      usedPaths := usedPaths + {c.pair.left, c.pair.right};
      if |candidates| == OUTPUT_CANDIDATES {
        FourAreEnough(ranked, n + 1);
        return;
      }
    }
    assert ranked[..|ranked|] == ranked;
  }

  lemma {:induction false} FourAreEnough(ranked: seq<Candidate>, n: nat)
    requires n <= |ranked| && |Picks(ranked[..n])| == OUTPUT_CANDIDATES
    ensures Picks(ranked) == Picks(ranked[..n])
    decreases |ranked|
  {
    PicksGrow(ranked, n);
    PicksAreDisjoint(ranked);
  }

  /**
   selectScopeCandidates: it abstains exactly above the observation limit; otherwise, on events
   without duplicate paths, it picks from the brute-force ranking of all pairs.
   */
  method SelectScopeCandidates(events: seq<Event>, mode: Mode, dir: Directory) returns (r: Selection)
    ensures r.Abstained? <==> |AllPairs(events, dir)| > MAX_PAIR_OBSERVATIONS
    ensures r.pairObservations == if r.Abstained? then MAX_PAIR_OBSERVATIONS + 1 else |AllPairs(events, dir)|
    ensures r.Selected? && (forall e <- events :: DuplicateFree(e)) ==>
              exists ranked :: RankedBruteForce(events, mode, dir, ranked) && r.qualifiedPairs == |ranked| && r.candidates == Picks(ranked)
  {
    hide AllPairs, StatisticsForPair, ClearsGates, Gated, DuplicateFree, RankedBruteForce, Precedes;
    var counted, observations := CountSupport(events, dir);
    if counted.None? {
      return Abstained(observations);
    }
    var support := counted.value;
    var qualified: seq<Candidate> := [];
    var rest := support.Keys;
    NothingGated(events, mode, support);
    while rest != {}
      invariant rest <= support.Keys
      invariant multiset(qualified) == multiset(Gated(events, mode, support, support.Keys - rest))
      decreases |rest|
    {
      var pair :| pair in rest;
      GatedStep(events, mode, support, support.Keys - rest, pair);
      assert support.Keys - (rest - {pair}) == support.Keys - rest + {pair};
      rest := rest - {pair};
      if support[pair] < MINIMUM_SHARED {
        continue;
      }
      var candidate := StatisticsForPair(events, pair, mode, support[pair]);
      if ClearsGates(candidate) {
        qualified := qualified + [candidate];
      }
    }
    assert support.Keys - rest == support.Keys;
    var ranked := Sort(qualified, ByRank());
    SameElements(qualified, ranked);
    if forall e <- events :: DuplicateFree(e) {
      forall c
        ensures c in Gated(events, mode, support, support.Keys) <==> Qualifies(events, mode, dir, c)
      {
        GatedIsBruteForce(events, mode, dir, support, c);
      }
      SortedRanking(events, mode, dir, Gated(events, mode, support, support.Keys), qualified);
    }
    var candidates := PickDisjoint(ranked);
    return Selected(observations, |qualified|, candidates);
  }

  lemma NothingGated(events: seq<Event>, mode: Mode, support: map<Pair, nat>)
    ensures Gated(events, mode, support, support.Keys - support.Keys) == {}
  {
    hide Passes, StatisticsForPair;
  }
}
