/**
 The history selector: which pairs of files in different directories change together often
 enough, from a bounded window of change events. The support of every pair is counted
 incrementally; the specification counts each pair directly.
 */
module History {
  import opened Texts

  const MINIMUM_OPPORTUNITIES := 12
  const MINIMUM_SHARED := 6
  const PAIR_RELATIVE_EVENTS := 24
  const OUTPUT_CANDIDATES := 4
  const MAX_PAIR_OBSERVATIONS := 250_000

  type Path = Text
  type Event = seq<Path>

  /** The parent directory of a path. */
  type Directory = Path -> Text

  datatype Mode = PairRelative | RepositoryWindow

  datatype Pair = Pair(left: Path, right: Path)

  datatype Tally = Tally(events: nat, opportunities: nat, left: nat, right: nat, shared: nat)

  datatype Candidate = Candidate(pair: Pair, support: nat, totals: Tally, bands: seq<Tally>)

  // ---------- Counting one pair ----------

  predicate Has(e: Event, p: Path) {
    p in e
  }

  function With(events: seq<Event>, p: Path): nat
    decreases |events|
  {
    if events == [] then 0 else With(events[..|events| - 1], p) + if Has(events[|events| - 1], p) then 1 else 0
  }

  function Both(events: seq<Event>, p: Path, q: Path): nat
    decreases |events|
  {
    if events == [] then 0
    else Both(events[..|events| - 1], p, q) + if Has(events[|events| - 1], p) && Has(events[|events| - 1], q) then 1 else 0
  }

  function Either(events: seq<Event>, p: Path, q: Path): nat
    decreases |events|
  {
    if events == [] then 0
    else Either(events[..|events| - 1], p, q) + if Has(events[|events| - 1], p) || Has(events[|events| - 1], q) then 1 else 0
  }

  function TallyOf(events: seq<Event>, p: Path, q: Path): Tally {
    Tally(|events|, Either(events, p, q), With(events, p), With(events, q), Both(events, p, q))
  }

  /** countPairEvents */
  method CountPairEvents(events: seq<Event>, p: Path, q: Path) returns (r: Tally)
    ensures r == TallyOf(events, p, q)
  {
    var left, right, shared, opportunities := 0, 0, 0, 0;
    for n := 0 to |events|
      invariant left == With(events[..n], p) && right == With(events[..n], q)
      invariant shared == Both(events[..n], p, q) && opportunities == Either(events[..n], p, q)
    {
      assert events[..n + 1][..n] == events[..n];
      var hasLeft, hasRight := p in events[n], q in events[n];
      if hasLeft {
        left := left + 1;
      }
      if hasRight {
        right := right + 1;
      }
      if hasLeft && hasRight {
        shared := shared + 1;
      }
      if hasLeft || hasRight {
        opportunities := opportunities + 1;
      }
    }
    assert events[..|events|] == events;
    return Tally(|events|, opportunities, left, right, shared);
  }

  /** opportunities are left and right together, less what they share */
  lemma {:induction false} OpportunitiesAddUp(events: seq<Event>, p: Path, q: Path)
    ensures var t := TallyOf(events, p, q);
            t.opportunities == t.left + t.right - t.shared && t.shared <= t.left && t.shared <= t.right && t.opportunities <= t.events
    decreases |events|
  {
    if events != [] {
      OpportunitiesAddUp(events[..|events| - 1], p, q);
    }
  }

  lemma TallyStep(events: seq<Event>, e: Event, p: Path, q: Path)
    ensures TallyOf(events + [e], p, q) == Added(TallyOf(events, p, q), TallyOf([e], p, q))
    ensures TallyOf([e], p, q) == Tally(1, if Has(e, p) || Has(e, q) then 1 else 0, if Has(e, p) then 1 else 0,
                                        if Has(e, q) then 1 else 0, if Has(e, p) && Has(e, q) then 1 else 0)
  {
    hide Has;
    var more, one := events + [e], [e];
    assert more[..|more| - 1] == events && more[|more| - 1] == e;
    assert one[..|one| - 1] == [] && one[|one| - 1] == e;
    assert With(one, p) == With([], p) + if Has(e, p) then 1 else 0;
    assert With(one, q) == With([], q) + if Has(e, q) then 1 else 0;
    assert Both(one, p, q) == Both([], p, q) + if Has(e, p) && Has(e, q) then 1 else 0;
    assert Either(one, p, q) == Either([], p, q) + if Has(e, p) || Has(e, q) then 1 else 0;
  }

  lemma {:induction false} TalliesAdd(a: seq<Event>, b: seq<Event>, p: Path, q: Path)
    ensures TallyOf(a + b, p, q) == Added(TallyOf(a, p, q), TallyOf(b, p, q))
    decreases |b|
  {
    if b == [] {
      assert a + b == a;
    } else {
      hide TallyOf;
      var front, e := b[..|b| - 1], b[|b| - 1];
      TalliesAdd(a, front, p, q);
      TallyStep(a + front, e, p, q);
      TallyStep(front, e, p, q);
      assert a + b == (a + front) + [e] && b == front + [e];
    }
  }

  function Added(a: Tally, b: Tally): Tally {
    Tally(a.events + b.events, a.opportunities + b.opportunities, a.left + b.left, a.right + b.right, a.shared + b.shared)
  }

  // ---------- The scope of a pair, and its bands ----------

  function Touching(events: seq<Event>, p: Path, q: Path): seq<Event>
    decreases |events|
  {
    if events == [] then []
    else Touching(events[..|events| - 1], p, q) + if Has(events[|events| - 1], p) || Has(events[|events| - 1], q) then [events[|events| - 1]] else []
  }

  function FirstFew(events: seq<Event>, n: nat): seq<Event> {
    if n < |events| then events[..n] else events
  }

  function Reverse(events: seq<Event>): (r: seq<Event>)
    ensures |r| == |events|
    decreases |events|
  {
    if events == [] then [] else [events[|events| - 1]] + Reverse(events[..|events| - 1])
  }

  /** The events that count for a pair, oldest first. */
  function Scope(newestFirst: seq<Event>, p: Path, q: Path, mode: Mode): seq<Event> {
    Reverse(if mode == PairRelative then FirstFew(Touching(newestFirst, p, q), PAIR_RELATIVE_EVENTS) else newestFirst)
  }

  /** The three consecutive thirds of the scope. */
  function Band(events: seq<Event>, index: nat): seq<Event>
    requires index < 3
  {
    events[index * |events| / 3..(index + 1) * |events| / 3]
  }

  function Bands(events: seq<Event>, p: Path, q: Path): seq<Tally> {
    [TallyOf(Band(events, 0), p, q), TallyOf(Band(events, 1), p, q), TallyOf(Band(events, 2), p, q)]
  }

  function StatisticsForPair(newestFirst: seq<Event>, pair: Pair, mode: Mode, support: nat): Candidate {
    var scope := Scope(newestFirst, pair.left, pair.right, mode);
    Candidate(pair, support, TallyOf(scope, pair.left, pair.right), Bands(scope, pair.left, pair.right))
  }

  /** The bands cover the scope in order, are thirds of it but for one event, and their counts sum to the totals. */
  lemma BandsPartition(newestFirst: seq<Event>, pair: Pair, mode: Mode, support: nat)
    ensures var scope := Scope(newestFirst, pair.left, pair.right, mode);
            Band(scope, 0) + Band(scope, 1) + Band(scope, 2) == scope
    ensures var c := StatisticsForPair(newestFirst, pair, mode, support);
            c.totals == Added(Added(c.bands[0], c.bands[1]), c.bands[2])
    ensures var n := |Scope(newestFirst, pair.left, pair.right, mode)|;
            forall band <- StatisticsForPair(newestFirst, pair, mode, support).bands :: n / 3 <= band.events <= (n + 2) / 3
  {
    hide Scope, TallyOf;
    var scope := Scope(newestFirst, pair.left, pair.right, mode);
    assert Band(scope, 0) + Band(scope, 1) + Band(scope, 2) == scope;
    hide Band;
    TalliesAdd(Band(scope, 0), Band(scope, 1), pair.left, pair.right);
    TalliesAdd(Band(scope, 0) + Band(scope, 1), Band(scope, 2), pair.left, pair.right);
    BandsAreThirds(scope, pair.left, pair.right);
  }

  lemma BandsAreThirds(scope: seq<Event>, p: Path, q: Path)
    ensures forall band <- Bands(scope, p, q) :: |scope| / 3 <= band.events <= (|scope| + 2) / 3
  {
    var n := |scope|;
    assert |Band(scope, 0)| == n / 3 && |Band(scope, 1)| == 2 * n / 3 - n / 3 && |Band(scope, 2)| == n - 2 * n / 3;
    hide Band, With, Both, Either;
  }

  lemma {:induction false} ReverseKeepsTally(events: seq<Event>, p: Path, q: Path)
    ensures TallyOf(Reverse(events), p, q) == TallyOf(events, p, q)
    decreases |events|
  {
    if events != [] {
      var front, last := events[..|events| - 1], events[|events| - 1];
      ReverseKeepsTally(front, p, q);
      TalliesAdd([last], Reverse(front), p, q);
      TalliesAdd(front, [last], p, q);
      assert events == front + [last];
    }
  }

  lemma {:induction false} TouchingKeepsShared(events: seq<Event>, p: Path, q: Path)
    ensures Both(Touching(events, p, q), p, q) == Both(events, p, q)
    decreases |events|
  {
    if events != [] {
      hide Has;
      var front, e := events[..|events| - 1], events[|events| - 1];
      TouchingKeepsShared(front, p, q);
      TallyStep(Touching(front, p, q), e, p, q);
      assert Touching(events, p, q) == if Has(e, p) || Has(e, q) then Touching(front, p, q) + [e] else Touching(front, p, q);
      assert TallyOf(Touching(front, p, q) + [e], p, q).shared == TallyOf(Touching(front, p, q), p, q).shared + TallyOf([e], p, q).shared;
    }
  }

  lemma SharedInPart(events: seq<Event>, n: nat, p: Path, q: Path)
    ensures Both(FirstFew(events, n), p, q) <= Both(events, p, q)
  {
    if n < |events| {
      TalliesAdd(events[..n], events[n..], p, q);
      assert events == events[..n] + events[n..];
    }
  }

  /** What a scope shares, the window shares. */
  lemma ScopeSharesLess(newestFirst: seq<Event>, p: Path, q: Path, mode: Mode)
    ensures Both(Scope(newestFirst, p, q, mode), p, q) <= Both(newestFirst, p, q)
  {
    var touching := Touching(newestFirst, p, q);
    TouchingKeepsShared(newestFirst, p, q);
    SharedInPart(touching, PAIR_RELATIVE_EVENTS, p, q);
    ReverseKeepsTally(FirstFew(touching, PAIR_RELATIVE_EVENTS), p, q);
    ReverseKeepsTally(newestFirst, p, q);
  }

  /**
   The scope runs from the oldest event to the newest: the whole window reversed, or the newest
   twenty-four events that touch either path, reversed.
   */
  lemma ScopeIsOldestFirst(newestFirst: seq<Event>, p: Path, q: Path, mode: Mode)
    ensures var scope := Scope(newestFirst, p, q, mode);
            var kept := if mode == RepositoryWindow then newestFirst else Touching(newestFirst, p, q);
            && |scope| == (if mode == PairRelative && |kept| > 24 then 24 else |kept|)
            && forall k :: 0 <= k < |scope| ==> scope[k] == kept[|scope| - 1 - k]
  {
    ReversedAt(if mode == PairRelative then FirstFew(Touching(newestFirst, p, q), PAIR_RELATIVE_EVENTS) else newestFirst);
  }

  lemma {:induction false} ReversedAt(events: seq<Event>)
    ensures forall k :: 0 <= k < |events| ==> Reverse(events)[k] == events[|events| - 1 - k]
    decreases |events|
  {
    if events != [] {
      ReversedAt(events[..|events| - 1]);
    }
  }

  /** In the pair-relative scope, events that touch neither path do not count, wherever they happen. */
  lemma UnrelatedEventsDoNotMatter(before: seq<Event>, e: Event, after: seq<Event>, pair: Pair, support: nat)
    requires pair.left !in e && pair.right !in e
    ensures StatisticsForPair(before + [e] + after, pair, PairRelative, support) == StatisticsForPair(before + after, pair, PairRelative, support)
    ensures Both(before + [e] + after, pair.left, pair.right) == Both(before + after, pair.left, pair.right)
  {
    hide Both, Scope, Bands, TallyOf;
    TouchingConcat(before + [e], after, pair.left, pair.right);
    TouchingConcat(before, [e], pair.left, pair.right);
    TouchingConcat(before, after, pair.left, pair.right);
    assert [e][..0] == [];
    assert Touching([e], pair.left, pair.right) == [];
    TouchingKeepsShared(before + [e] + after, pair.left, pair.right);
    TouchingKeepsShared(before + after, pair.left, pair.right);
    SameTouchingSameScope(before + [e] + after, before + after, pair.left, pair.right);
  }

  lemma SameTouchingSameScope(a: seq<Event>, b: seq<Event>, p: Path, q: Path)
    requires Touching(a, p, q) == Touching(b, p, q)
    ensures Scope(a, p, q, PairRelative) == Scope(b, p, q, PairRelative)
  {
  }

  lemma {:induction false} TouchingConcat(a: seq<Event>, b: seq<Event>, p: Path, q: Path)
    ensures Touching(a + b, p, q) == Touching(a, p, q) + Touching(b, p, q)
    decreases |b|
  {
    if b == [] {
      assert a + b == a;
    } else {
      TouchingConcat(a, b[..|b| - 1], p, q);
      assert (a + b)[..|a + b| - 1] == a + b[..|b| - 1];
    }
  }

  // ---------- The gates ----------

  function Least(a: nat, b: nat): nat {
    if a < b then a else b
  }

  /** candidateClearsGates */
  predicate ClearsGates(c: Candidate) {
    && |c.bands| == 3
    && c.totals.opportunities >= MINIMUM_OPPORTUNITIES && c.totals.shared >= MINIMUM_SHARED
    && Least(c.totals.left, c.totals.right) > 0
    && c.totals.shared * 5 >= 3 * Least(c.totals.left, c.totals.right)
    && c.totals.opportunities > 0
    && c.totals.shared * 10 >= 3 * c.totals.opportunities
    && forall i :: 0 <= i < 3 ==> c.bands[i].shared >= 1
  }

  /**
   A candidate clears the gates when it has twelve opportunities and six shared events, accompanies
   the rarer file in three fifths of its events, overlaps in three tenths of the opportunities, and
   shares an event in each band.
   */
  lemma GatesExactly(c: Candidate)
    ensures ClearsGates(c) <==>
              && |c.bands| == 3 && c.bands[0].shared > 0 && c.bands[1].shared > 0 && c.bands[2].shared > 0
              && c.totals.opportunities >= 12 && c.totals.shared >= 6
              && c.totals.left > 0 && c.totals.right > 0
              && (c.totals.shared as real / c.totals.left as real >= 0.6 || c.totals.shared as real / c.totals.right as real >= 0.6)
              && c.totals.shared as real / c.totals.opportunities as real >= 0.3
  {
    var t := c.totals;
    if t.left > 0 && t.right > 0 && t.opportunities > 0 {
      AtLeastFraction(t.shared, t.left, 3, 5);
      AtLeastFraction(t.shared, t.right, 3, 5);
      AtLeastFraction(t.shared, t.opportunities, 3, 10);
    }
  }

  lemma AtLeastFraction(n: nat, d: nat, p: nat, q: nat)
    requires d > 0 && q > 0
    ensures n * q >= p * d <==> n as real / d as real >= p as real / q as real
  {
    LargerIsByValue(p, q, n, d);
    assert n * q == q * n;
  }

  /** Each gate is met at its bound and missed one event below it. */
  lemma GatesAtTheirBounds(pair: Pair, bands: seq<Tally>)
    requires |bands| == 3 && forall i :: 0 <= i < 3 ==> bands[i].shared == 1
    ensures ClearsGates(Candidate(pair, 6, Tally(20, 20, 10, 16, 6), bands))
    ensures !ClearsGates(Candidate(pair, 6, Tally(21, 21, 10, 17, 6), bands))
    ensures !ClearsGates(Candidate(pair, 6, Tally(20, 20, 11, 15, 6), bands))
    ensures ClearsGates(Candidate(pair, 6, Tally(12, 12, 6, 12, 6), bands))
    ensures !ClearsGates(Candidate(pair, 6, Tally(11, 11, 6, 11, 6), bands))
    ensures !ClearsGates(Candidate(pair, 5, Tally(12, 12, 5, 12, 5), bands))
    ensures !ClearsGates(Candidate(pair, 6, Tally(12, 12, 6, 12, 6), bands[1 := bands[1].(shared := 0)]))
  {
    assert bands[1 := bands[1].(shared := 0)][1].shared == 0;
  }

  /** The minimum support drops no pair that clears the gates. */
  lemma PrefilterIsSafe(newestFirst: seq<Event>, pair: Pair, mode: Mode)
    requires ClearsGates(StatisticsForPair(newestFirst, pair, mode, Both(newestFirst, pair.left, pair.right)))
    ensures Both(newestFirst, pair.left, pair.right) >= MINIMUM_SHARED
  {
    ScopeSharesLess(newestFirst, pair.left, pair.right, mode);
  }

  // ---------- The order of candidates ----------

  /** What compareFractionsDescending decides by cross-multiplication: the first fraction is the larger. */
  predicate Larger(n: nat, d: nat, n': nat, d': nat) {
    n' * d < n * d'
  }

  /** compareCandidates: the first is ordered before the second. */
  predicate Precedes(a: Candidate, b: Candidate) {
    var da, db := Least(a.totals.left, a.totals.right), Least(b.totals.left, b.totals.right);
    if a.support != b.support then a.support > b.support
    else if Larger(a.totals.shared, a.totals.opportunities, b.totals.shared, b.totals.opportunities) then true
    else if Larger(b.totals.shared, b.totals.opportunities, a.totals.shared, a.totals.opportunities) then false
    else if Larger(a.totals.shared, da, b.totals.shared, db) then true
    else if Larger(b.totals.shared, db, a.totals.shared, da) then false
    else if a.pair.left != b.pair.left then Less(a.pair.left, b.pair.left)
    else Less(a.pair.right, b.pair.right)
  }

  lemma LargerIsByValue(n: nat, d: nat, n': nat, d': nat)
    requires d > 0 && d' > 0
    ensures Larger(n, d, n', d') <==> n as real / d as real > n' as real / d' as real
  {
    var x, y := n as real / d as real, n' as real / d' as real;
    var rd, rd' := d as real, d' as real;
    assert x * rd == n as real && y * rd' == n' as real;
    assert (n' * d) as real == y * rd' * rd && (n * d') as real == x * rd * rd';
    var scale := rd * rd';
    assert scale > 0.0;
    assert y * rd' * rd == y * scale && x * rd * rd' == x * scale;
    if x > y {
      assert (x - y) * scale > 0.0;
    } else {
      assert (y - x) * scale >= 0.0;
    }
  }

  /** The values that the comparison reads, as numbers. */
  datatype Standing = Standing(support: nat, overlap: real, accompaniment: real, pair: Pair)

  function StandingOf(c: Candidate): Standing
    requires c.totals.opportunities > 0 && Least(c.totals.left, c.totals.right) > 0
  {
    Standing(c.support, c.totals.shared as real / c.totals.opportunities as real,
             c.totals.shared as real / Least(c.totals.left, c.totals.right) as real, c.pair)
  }

  predicate Above(a: Standing, b: Standing) {
    || a.support > b.support
    || (a.support == b.support
        && (|| a.overlap > b.overlap
            || (a.overlap == b.overlap
                && (|| a.accompaniment > b.accompaniment
                    || (a.accompaniment == b.accompaniment
                        && (Less(a.pair.left, b.pair.left) || (a.pair.left == b.pair.left && Less(a.pair.right, b.pair.right))))))))
  }

  predicate Comparable(c: Candidate) {
    c.totals.opportunities > 0 && Least(c.totals.left, c.totals.right) > 0
  }

  /** With positive denominators the comparison is lexicographic on the standings. */
  lemma PrecedesIsAbove(a: Candidate, b: Candidate)
    requires Comparable(a) && Comparable(b)
    ensures Precedes(a, b) <==> Above(StandingOf(a), StandingOf(b))
  {
    var da, db := Least(a.totals.left, a.totals.right), Least(b.totals.left, b.totals.right);
    LargerIsByValue(a.totals.shared, a.totals.opportunities, b.totals.shared, b.totals.opportunities);
    LargerIsByValue(b.totals.shared, b.totals.opportunities, a.totals.shared, a.totals.opportunities);
    LargerIsByValue(a.totals.shared, da, b.totals.shared, db);
    LargerIsByValue(b.totals.shared, db, a.totals.shared, da);
    hide Larger;
    LessIsTotal(a.pair.left, b.pair.left);
    hide Less;
  }

  lemma AboveIsStrict(a: Standing, b: Standing, c: Standing)
    ensures Above(a, b) ==> !Above(b, a)
    ensures Above(a, b) && Above(b, c) ==> Above(a, c)
    ensures a == b || Above(a, b) || Above(b, a) || a.pair == b.pair
  {
    LessIsTotal(a.pair.left, b.pair.left);
    LessIsTotal(a.pair.right, b.pair.right);
    if Less(a.pair.left, b.pair.left) && Less(b.pair.left, c.pair.left) {
      LessIsTransitive(a.pair.left, b.pair.left, c.pair.left);
    }
    if Less(a.pair.right, b.pair.right) && Less(b.pair.right, c.pair.right) {
      LessIsTransitive(a.pair.right, b.pair.right, c.pair.right);
    }
    hide Less;
  }

  /** The comparison is a strict order on candidates with positive denominators, total but for two of the same pair. */
  lemma PrecedesIsStrict(a: Candidate, b: Candidate, c: Candidate)
    requires Comparable(a) && Comparable(b) && Comparable(c)
    ensures Precedes(a, b) ==> !Precedes(b, a)
    ensures Precedes(a, b) && Precedes(b, c) ==> Precedes(a, c)
    ensures a.pair == b.pair || Precedes(a, b) || Precedes(b, a)
  {
    PrecedesIsAbove(a, b);
    PrecedesIsAbove(b, a);
    PrecedesIsAbove(b, c);
    PrecedesIsAbove(a, c);
    AboveIsStrict(StandingOf(a), StandingOf(b), StandingOf(c));
  }
}
