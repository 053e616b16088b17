/**
 The bounded window of change events that selection works on: the newest events whose
 surviving paths are neither none nor too many.
 */
module HistoryWindow {
  import opened Wrappers
  import opened Texts
  import opened Sorting
  import opened SortedTexts
  import opened History
  import opened HistorySelector

  const SCAN_REVISIONS := 400
  const RETAINED_DIFFS := 200
  const MAX_PATH_BYTES := 4_096
  const MAX_TRACKED_FILES := 50_000
  const MAX_DIFF_PATHS := 100_000

  datatype Failure = TrackedFileLimit | DiffPathLimit | UnsafePath

  datatype Omitted = Omitted(empty: nat, noCurrent: nat, excludedOnly: nat, bulk: nat, older: nat)

  datatype Reason = Empty | NoCurrentPath | ExcludedOnly | Bulk | OlderAfterRetention

  datatype Verdict = Retain(surviving: Event) | Omit(reason: Reason)

  datatype Window = Window(events: seq<Event>, scanned: nat, omitted: Omitted)

  /** Whether a current path is excluded from selection, by name or by attribute. */
  type Exclusion = Path -> bool

  predicate SafePath(p: Path) {
    p != [] && 0 !in p && |p| <= MAX_PATH_BYTES
  }

  function Changed(paths: seq<Path>): seq<Path> {
    Arranged(Once(paths))
  }

  /** bulkPathLimit: a fifth of the eligible files, between 20 and 100. */
  function BulkPathLimit(eligible: nat): (r: nat)
    ensures 20 <= r <= 100 && (20 <= eligible / 5 <= 100 ==> r == eligible / 5)
    ensures (eligible / 5 < 20 ==> r == 20) && (eligible / 5 > 100 ==> r == 100)
  {
    var proportional := eligible / 5;
    var floor := if proportional > 20 then proportional else 20;
    if floor < 100 then floor else 100
  }

  predicate Eligible(current: set<Path>, excluded: Exclusion, p: Path) {
    p in current && !excluded(p)
  }

  function Kept(paths: seq<Path>, current: set<Path>, excluded: Exclusion): (r: seq<Path>)
    ensures |r| <= |paths|
    decreases |paths|
  {
    if paths == [] then []
    else
      var last := paths[|paths| - 1];
      Kept(paths[..|paths| - 1], current, excluded) + if Eligible(current, excluded, last) then [last] else []
  }

  function Current(tracked: seq<Path>): set<Path> {
    set p <- tracked
  }

  function EligibleCount(tracked: seq<Path>, excluded: Exclusion): nat {
    |Kept(Once(tracked), Current(tracked), excluded)|
  }

  /** No path twice, some but at most a hundred, all of them tracked and none excluded. */
  ghost predicate GoodEvent(e: Event, tracked: seq<Path>, excluded: Exclusion) {
    DuplicateFree(e) && 1 <= |e| <= 100 && forall p <- e :: p in tracked && !excluded(p)
  }

  function Survivors(change: seq<Path>, current: set<Path>, excluded: Exclusion): seq<Path> {
    Kept(Changed(change), current, excluded)
  }

  /** The surviving paths of the events that are kept at all, newest first. */
  function Retainable(changes: seq<seq<Path>>, current: set<Path>, excluded: Exclusion, limit: nat): seq<Event>
    decreases |changes|
  {
    if changes == [] then []
    else
      var survivors := Survivors(changes[|changes| - 1], current, excluded);
      Retainable(changes[..|changes| - 1], current, excluded, limit) + if 1 <= |survivors| <= limit then [survivors] else []
  }

  function Total(o: Omitted): nat {
    o.empty + o.noCurrent + o.excludedOnly + o.bulk + o.older
  }

  function Noted(o: Omitted, reason: Reason): (r: Omitted)
    ensures Total(r) == Total(o) + 1
  {
    match reason
    case Empty => o.(empty := o.empty + 1)
    case NoCurrentPath => o.(noCurrent := o.noCurrent + 1)
    case ExcludedOnly => o.(excludedOnly := o.excludedOnly + 1)
    case Bulk => o.(bulk := o.bulk + 1)
    case OlderAfterRetention => o.(older := o.older + 1)
  }

  lemma {:induction false} KeptMeaning(paths: seq<Path>, current: set<Path>, excluded: Exclusion)
    requires Ascending(paths)
    ensures Ascending(Kept(paths, current, excluded))
    ensures forall p :: p in Kept(paths, current, excluded) <==> p in paths && Eligible(current, excluded, p)
    decreases |paths|
  {
    if paths != [] {
      var front, last := paths[..|paths| - 1], paths[|paths| - 1];
      KeptMeaning(front, current, excluded);
      hide Less, Eligible;
      assert paths == front + [last];
      var kept := Kept(front, current, excluded);
      forall i | 0 <= i < |kept|
        ensures Less(kept[i], last)
      {
        assert kept[i] in kept && kept[i] in front;
        var j :| 0 <= j < |front| && front[j] == kept[i];
        assert paths[j] == front[j];
      }
    }
  }

  /** What survives of a change: its eligible current paths, once each. */
  lemma SurvivorsMeaning(change: seq<Path>, current: set<Path>, excluded: Exclusion)
    ensures DuplicateFree(Survivors(change, current, excluded))
    ensures forall p :: p in Survivors(change, current, excluded) <==> p in change && Eligible(current, excluded, p)
  {
    ArrangedMeaning(Once(change));
    KeptMeaning(Changed(change), current, excluded);
    var s := Survivors(change, current, excluded);
    forall i, j | 0 <= i < j < |s|
      ensures s[i] != s[j]
    {
      LessIsTotal(s[i], s[j]);
    }
    hide Less, Eligible;
    assert forall p :: p in Changed(change) <==> Has(Once(change), p);
  }

  lemma {:induction false} RetainableMeaning(changes: seq<seq<Path>>, current: set<Path>, excluded: Exclusion, limit: nat)
    ensures forall e <- Retainable(changes, current, excluded, limit) ::
              DuplicateFree(e) && 1 <= |e| <= limit && forall p <- e :: Eligible(current, excluded, p)
    decreases |changes|
  {
    if changes != [] {
      RetainableMeaning(changes[..|changes| - 1], current, excluded, limit);
      SurvivorsMeaning(changes[|changes| - 1], current, excluded);
      hide DuplicateFree, Eligible, Survivors;
    }
  }

  lemma RetainableStep(changes: seq<seq<Path>>, n: nat, current: set<Path>, excluded: Exclusion, limit: nat)
    requires n < |changes|
    ensures var survivors := Survivors(changes[n], current, excluded);
            Retainable(changes[..n + 1], current, excluded, limit)
            == Retainable(changes[..n], current, excluded, limit) + if 1 <= |survivors| <= limit then [survivors] else []
  {
    assert changes[..n + 1][..n] == changes[..n];
  }

  lemma {:induction false} RetainableGrows(changes: seq<seq<Path>>, n: nat, current: set<Path>, excluded: Exclusion, limit: nat)
    requires n <= |changes|
    ensures Retainable(changes[..n], current, excluded, limit) <= Retainable(changes, current, excluded, limit)
    decreases |changes|
  {
    if n < |changes| {
      assert changes[..|changes| - 1][..n] == changes[..n];
      RetainableGrows(changes[..|changes| - 1], n, current, excluded, limit);
    } else {
      assert changes[..n] == changes;
    }
  }

  /** The inner loop over the paths of one change. */
  method Survive(paths: seq<Path>, current: set<Path>, excluded: Exclusion) returns (surviving: seq<Path>, currentPaths: nat)
    ensures surviving == Kept(paths, current, excluded)
    ensures currentPaths == 0 <==> forall p <- paths :: p !in current
  {
    surviving, currentPaths := [], 0;
    for n := 0 to |paths|
      invariant surviving == Kept(paths[..n], current, excluded)
      invariant currentPaths == 0 <==> forall k :: 0 <= k < n ==> paths[k] !in current
    {
      assert paths[..n + 1][..n] == paths[..n];
      if paths[n] !in current {
        continue;
      }
      currentPaths := currentPaths + 1;
      if !excluded(paths[n]) {
        surviving := surviving + [paths[n]];
      }
    }
    assert paths[..|paths|] == paths;
  }

  /** Why a change cannot be looked at: too many distinct paths, or an unsafe one. */
  function ChangeFailure(change: seq<Path>): Option<Failure> {
    if |Once(change)| > MAX_DIFF_PATHS then Some(DiffPathLimit)
    else if exists p <- change :: !SafePath(p) then Some(UnsafePath)
    else None
  }

  /** What becomes of a change while the window has room. */
  function VerdictOf(change: seq<Path>, current: set<Path>, excluded: Exclusion, limit: nat): Verdict {
    var survivors := Survivors(change, current, excluded);
    if change == [] then Omit(Empty)
    else if forall p <- change :: p !in current then Omit(NoCurrentPath)
    else if survivors == [] then Omit(ExcludedOnly)
    else if |survivors| > limit then Omit(Bulk)
    else Retain(survivors)
  }

  /** The window after these changes. */
  function WindowOf(changes: seq<seq<Path>>, current: set<Path>, excluded: Exclusion, limit: nat): seq<Event> {
    FirstFew(Retainable(changes, current, excluded, limit), RETAINED_DIFFS)
  }

  /** How the changes that are not retained are counted. */
  function OmittedOf(changes: seq<seq<Path>>, current: set<Path>, excluded: Exclusion, limit: nat): Omitted
    decreases |changes|
  {
    if changes == [] then Omitted(0, 0, 0, 0, 0)
    else
      var front, last := changes[..|changes| - 1], changes[|changes| - 1];
      var before := OmittedOf(front, current, excluded, limit);
      if |WindowOf(front, current, excluded, limit)| >= RETAINED_DIFFS then Noted(before, OlderAfterRetention)
      else
        match VerdictOf(last, current, excluded, limit)
        case Omit(reason) => Noted(before, reason)
        case Retain(_) => before
  }

  /** Change n is looked at, since the window still has room, and cannot be. */
  predicate RefusedAt(changes: seq<seq<Path>>, n: nat, current: set<Path>, excluded: Exclusion, limit: nat)
    requires n < |changes|
  {
    |WindowOf(changes[..n], current, excluded, limit)| < RETAINED_DIFFS && ChangeFailure(changes[n]).Some?
  }

  function Scanned(changes: seq<seq<Path>>): (r: nat)
    ensures r <= |changes|
  {
    if |changes| < SCAN_REVISIONS then |changes| else SCAN_REVISIONS
  }

  function LimitFor(tracked: seq<Path>, excluded: Exclusion): nat {
    BulkPathLimit(EligibleCount(tracked, excluded))
  }

  /** No change before n is refused. */
  predicate AllLookedAt(changes: seq<seq<Path>>, n: nat, current: set<Path>, excluded: Exclusion, limit: nat)
    requires n <= |changes|
  {
    forall k :: 0 <= k < n ==> !RefusedAt(changes, k, current, excluded, limit)
  }

  /** The result of retention, and each of its failures, is what tracked files and changes determine. */
  ghost predicate Retention(tracked: seq<Path>, changes: seq<seq<Path>>, excluded: Exclusion, r: Result<Window, Failure>) {
    var current, limit, scanned := Current(tracked), LimitFor(tracked, excluded), Scanned(changes);
    if |Once(tracked)| > MAX_TRACKED_FILES then r == Err(TrackedFileLimit)
    else if exists p <- tracked :: !SafePath(p) then r == Err(UnsafePath)
    else if AllLookedAt(changes, scanned, current, excluded, limit) then
      r == Ok(Window(WindowOf(changes[..scanned], current, excluded, limit), scanned, OmittedOf(changes[..scanned], current, excluded, limit)))
    else
      exists n :: 0 <= n < scanned && RefusedAt(changes, n, current, excluded, limit) && AllLookedAt(changes, n, current, excluded, limit)
                  && r == Err(ChangeFailure(changes[n]).value)
  }

  /** The body of the event loop: whether one change is retained, and why not otherwise. */
  method Classify(change: seq<Path>, current: set<Path>, excluded: Exclusion, limit: nat) returns (r: Result<Verdict, Failure>)
    ensures r == match ChangeFailure(change)
                 case Some(failure) => Err(failure)
                 case None => Ok(VerdictOf(change, current, excluded, limit))
  {
    hide SafePath, Once, Kept;
    var paths := Changed(change);
    SurvivorsAreKept(change, current, excluded);
    ChangedMeaning(change);
    hide Changed, Survivors;
    if |paths| > MAX_DIFF_PATHS {
      return Err(DiffPathLimit);
    }
    if exists p <- paths :: !SafePath(p) {
      return Err(UnsafePath);
    }
    if |paths| == 0 {
      return Ok(Omit(Empty));
    }
    var surviving, currentPaths := Survive(paths, current, excluded);
    if currentPaths == 0 {
      NoneCurrent(paths, current, excluded);
      return Ok(Omit(NoCurrentPath));
    }
    if |surviving| == 0 {
      return Ok(Omit(ExcludedOnly));
    }
    if |surviving| > limit {
      return Ok(Omit(Bulk));
    }
    return Ok(Retain(surviving));
  }

  lemma ChangedMeaning(change: seq<Path>)
    ensures forall p :: p in Changed(change) <==> p in change
    ensures Changed(change) == [] <==> change == []
    ensures |Changed(change)| == |Once(change)|
  {
    ArrangedMeaning(Once(change));
    SameElements(Changed(change), Once(change));
    hide Arranged;
    assert forall p :: p in Changed(change) <==> Has(Once(change), p);
    if change != [] {
      assert change[0] in Changed(change);
    }
  }

  /**
   retainEligibleEvents: the newest 200 of the events kept among the newest 400, every scanned
   event being either retained or counted under exactly one reason, or the first failure met.
   */
  method RetainEligibleEvents(tracked: seq<Path>, changes: seq<seq<Path>>, excluded: Exclusion) returns (r: Result<Window, Failure>)
    ensures Retention(tracked, changes, excluded, r)
  {
    hide SafePath, BulkPathLimit, Eligible, Kept, Current, Once, ChangeFailure, VerdictOf, WindowOf, OmittedOf, AllLookedAt, RefusedAt;
    var once := Once(tracked);
    if |once| > MAX_TRACKED_FILES {
      return Err(TrackedFileLimit);
    }
    if exists p <- once :: !SafePath(p) {
      return Err(UnsafePath);
    }
    var current := Current(tracked);
    var eligible := Kept(once, current, excluded);
    var limit := BulkPathLimit(|eligible|);
    var retained: seq<Event> := [];
    var omitted := Omitted(0, 0, 0, 0, 0);
    var scanned := if |changes| < SCAN_REVISIONS then |changes| else SCAN_REVISIONS;
    NothingScanned(changes, current, excluded, limit);
    for n := 0 to scanned
      invariant omitted == OmittedOf(changes[..n], current, excluded, limit) && retained == WindowOf(changes[..n], current, excluded, limit)
      invariant AllLookedAt(changes, n, current, excluded, limit)
    {
      WindowStep(changes, n, current, excluded, limit);
      OmittedStep(changes, n, current, excluded, limit);
      LookedAtStep(changes, n, current, excluded, limit);
      if |retained| >= RETAINED_DIFFS {
        omitted := Noted(omitted, OlderAfterRetention);
        continue;
      }
      var verdict := Classify(changes[n], current, excluded, limit);
      if verdict.Err? {
        NotAllLookedAt(changes, n, scanned, current, excluded, limit);
        return Err(verdict.error);
      }
      match verdict.value
      case Omit(reason) => omitted := Noted(omitted, reason);
      case Retain(surviving) => retained := retained + [surviving];
    }
    return Ok(Window(retained, scanned, omitted));
  }

  lemma NothingScanned(changes: seq<seq<Path>>, current: set<Path>, excluded: Exclusion, limit: nat)
    ensures WindowOf(changes[..0], current, excluded, limit) == [] && OmittedOf(changes[..0], current, excluded, limit) == Omitted(0, 0, 0, 0, 0)
    ensures AllLookedAt(changes, 0, current, excluded, limit)
  {
  }

  lemma NotAllLookedAt(changes: seq<seq<Path>>, n: nat, scanned: nat, current: set<Path>, excluded: Exclusion, limit: nat)
    requires n < scanned <= |changes| && RefusedAt(changes, n, current, excluded, limit)
    ensures !AllLookedAt(changes, scanned, current, excluded, limit)
  {
    hide RefusedAt;
  }

  /** One more change, while the window has room and when it has none. */
  lemma WindowStep(changes: seq<seq<Path>>, n: nat, current: set<Path>, excluded: Exclusion, limit: nat)
    requires n < |changes|
    ensures var before, verdict := WindowOf(changes[..n], current, excluded, limit), VerdictOf(changes[n], current, excluded, limit);
            WindowOf(changes[..n + 1], current, excluded, limit)
            == if |before| < RETAINED_DIFFS && verdict.Retain? then before + [verdict.surviving] else before
  {
    hide Retainable, FirstFew, VerdictOf, Survivors;
    FirstFewStep(changes, n, current, excluded, limit);
    SurvivorsOfVerdict(changes[n], current, excluded, limit);
  }

  lemma OmittedStep(changes: seq<seq<Path>>, n: nat, current: set<Path>, excluded: Exclusion, limit: nat)
    requires n < |changes|
    ensures var before, verdict := OmittedOf(changes[..n], current, excluded, limit), VerdictOf(changes[n], current, excluded, limit);
            OmittedOf(changes[..n + 1], current, excluded, limit)
            == if |WindowOf(changes[..n], current, excluded, limit)| >= RETAINED_DIFFS then Noted(before, OlderAfterRetention)
               else if verdict.Retain? then before else Noted(before, verdict.reason)
  {
    hide WindowOf, VerdictOf, Noted;
    assert changes[..n + 1][..n] == changes[..n];
  }

  lemma LookedAtStep(changes: seq<seq<Path>>, n: nat, current: set<Path>, excluded: Exclusion, limit: nat)
    requires n < |changes|
    ensures RefusedAt(changes, n, current, excluded, limit)
            <==> |WindowOf(changes[..n], current, excluded, limit)| < RETAINED_DIFFS && ChangeFailure(changes[n]).Some?
    ensures AllLookedAt(changes, n + 1, current, excluded, limit)
            <==> AllLookedAt(changes, n, current, excluded, limit) && !RefusedAt(changes, n, current, excluded, limit)
  {
    hide WindowOf, ChangeFailure;
  }

  /** A change is retained exactly when it is retainable, and then as its survivors. */
  lemma SurvivorsOfVerdict(change: seq<Path>, current: set<Path>, excluded: Exclusion, limit: nat)
    ensures var verdict, survivors := VerdictOf(change, current, excluded, limit), Survivors(change, current, excluded);
            (verdict.Retain? <==> 1 <= |survivors| <= limit) && (verdict.Retain? ==> verdict.surviving == survivors)
  {
    SurvivorsAreKept(change, current, excluded);
    ChangedMeaning(change);
    if forall p <- change :: p !in current {
      NoneCurrent(Changed(change), current, excluded);
    }
    hide Survivors, Kept, Changed;
  }

  /** Every scanned change is either retained or counted under one reason. */
  lemma {:induction false} EveryChangeIsCounted(changes: seq<seq<Path>>, current: set<Path>, excluded: Exclusion, limit: nat)
    ensures |WindowOf(changes, current, excluded, limit)| + Total(OmittedOf(changes, current, excluded, limit)) == |changes|
    decreases |changes|
  {
    hide WindowOf, OmittedOf, VerdictOf, Noted, Total;
    if changes == [] {
      assert changes[..0] == changes;
      NothingScanned(changes, current, excluded, limit);
      NothingOmitted();
    } else {
      var n := |changes| - 1;
      assert changes[..n + 1] == changes;
      EveryChangeIsCounted(changes[..n], current, excluded, limit);
      WindowStep(changes, n, current, excluded, limit);
      OmittedStep(changes, n, current, excluded, limit);
    }
  }

  /** A window that is retained counts every scanned change, and its events are fit for selection. */
  lemma WindowIsGood(tracked: seq<Path>, changes: seq<seq<Path>>, excluded: Exclusion, r: Result<Window, Failure>)
    requires Retention(tracked, changes, excluded, r) && r.Ok?
    ensures r.value.scanned == |r.value.events| + Total(r.value.omitted)
    ensures forall e <- r.value.events :: GoodEvent(e, tracked, excluded)
  {
    var current, limit, scanned := Current(tracked), LimitFor(tracked, excluded), Scanned(changes);
    hide OmittedOf, VerdictOf, Current, EligibleCount, GoodEvent, AllLookedAt, RefusedAt, ChangeFailure, Total;
    EveryChangeIsCounted(changes[..scanned], current, excluded, limit);
    WindowMeaning(r.value.events, changes[..scanned], tracked, excluded, limit);
  }

  /** The paths of a retained window are safe: not empty, of at most 4,096 bytes and without NUL. */
  lemma WindowPathsAreSafe(tracked: seq<Path>, changes: seq<seq<Path>>, excluded: Exclusion, r: Result<Window, Failure>)
    requires Retention(tracked, changes, excluded, r) && r.Ok?
    ensures forall e <- r.value.events, p: Path <- e :: 1 <= |p| <= 4_096 && 0 !in p
  {
    WindowIsGood(tracked, changes, excluded, r);
    hide Once, WindowOf, OmittedOf, DuplicateFree, AllLookedAt;
    assert forall p <- tracked :: SafePath(p);
  }

  lemma NothingOmitted()
    ensures Total(Omitted(0, 0, 0, 0, 0)) == 0
  {
  }

  lemma SurvivorsAreKept(change: seq<Path>, current: set<Path>, excluded: Exclusion)
    ensures Survivors(change, current, excluded) == Kept(Changed(change), current, excluded)
  {
  }

  lemma {:induction false} NoneCurrent(paths: seq<Path>, current: set<Path>, excluded: Exclusion)
    requires forall p <- paths :: p !in current
    ensures Kept(paths, current, excluded) == []
    decreases |paths|
  {
    if paths != [] {
      NoneCurrent(paths[..|paths| - 1], current, excluded);
    }
  }

  /** One more change makes at most one more event, and none once the window is full. */
  lemma FirstFewStep(changes: seq<seq<Path>>, n: nat, current: set<Path>, excluded: Exclusion, limit: nat)
    requires n < |changes|
    ensures var before, survivors := FirstFew(Retainable(changes[..n], current, excluded, limit), RETAINED_DIFFS), Survivors(changes[n], current, excluded);
            FirstFew(Retainable(changes[..n + 1], current, excluded, limit), RETAINED_DIFFS)
            == if |before| < RETAINED_DIFFS && 1 <= |survivors| <= limit then before + [survivors] else before
  {
    hide Retainable, Survivors, FirstFew;
    RetainableStep(changes, n, current, excluded, limit);
    var survivors := Survivors(changes[n], current, excluded);
    FirstFewAppend(Retainable(changes[..n], current, excluded, limit), survivors, RETAINED_DIFFS);
    assert Retainable(changes[..n], current, excluded, limit) + [] == Retainable(changes[..n], current, excluded, limit);
  }

  lemma FirstFewAppend(events: seq<Event>, e: Event, n: nat)
    ensures FirstFew(events + [e], n) == if |FirstFew(events, n)| < n then FirstFew(events, n) + [e] else FirstFew(events, n)
  {
  }

  lemma WindowMeaning(events: seq<Event>, changes: seq<seq<Path>>, tracked: seq<Path>, excluded: Exclusion, limit: nat)
    requires limit <= 100 && events == FirstFew(Retainable(changes, Current(tracked), excluded, limit), RETAINED_DIFFS)
    ensures forall e <- events :: GoodEvent(e, tracked, excluded)
  {
    RetainableMeaning(changes, Current(tracked), excluded, limit);
    hide Retainable, DuplicateFree;
    assert forall e <- events :: e in Retainable(changes, Current(tracked), excluded, limit);
    assert forall e <- events, p <- e :: Eligible(Current(tracked), excluded, p);
  }

  /** Retention and then selection: on a retained window the selector picks from the brute-force ranking. */
  method SelectFromHistory(tracked: seq<Path>, changes: seq<seq<Path>>, excluded: Exclusion, mode: Mode, dir: Directory)
    returns (window: Result<Window, Failure>, r: Option<Selection>)
    ensures Retention(tracked, changes, excluded, window) && (r.Some? <==> window.Ok?)
    ensures r.Some? ==> (r.value.Abstained? <==> |AllPairs(window.value.events, dir)| > MAX_PAIR_OBSERVATIONS)
    ensures r.Some? && r.value.Selected? ==> PicksOfRanking(window.value.events, mode, dir, r.value)
  {
    hide Retention, AllPairs, GoodEvent;
    window := RetainEligibleEvents(tracked, changes, excluded);
    if window.Err? {
      return window, None;
    }
    WindowIsGood(tracked, changes, excluded, window);
    DuplicateFreeWindow(window.value.events, tracked, excluded);
    var selection := SelectScopeCandidates(window.value.events, mode, dir);
    return window, Some(selection);
  }

  ghost predicate PicksOfRanking(events: seq<Event>, mode: Mode, dir: Directory, r: Selection)
    requires r.Selected?
  {
    exists ranked :: RankedBruteForce(events, mode, dir, ranked) && r.qualifiedPairs == |ranked| && r.candidates == Picks(ranked)
  }

  lemma DuplicateFreeWindow(events: seq<Event>, tracked: seq<Path>, excluded: Exclusion)
    requires forall e <- events :: GoodEvent(e, tracked, excluded)
    ensures forall e <- events :: DuplicateFree(e)
  {
  }

  // ---------- Why changes are left out ----------

  /** The tracked paths of a change, and those of them that are not excluded, as sets. */
  function TrackedIn(change: seq<Path>, current: set<Path>): set<Path> {
    set p <- change | p in current
  }

  function EligibleIn(change: seq<Path>, current: set<Path>, excluded: Exclusion): set<Path> {
    set p <- change | p in current && !excluded(p)
  }

  lemma {:induction false} SizeOfSet(s: seq<Path>, all: set<Path>)
    requires DuplicateFree(s) && forall p :: p in s <==> p in all
    ensures |s| == |all|
    decreases |s|
  {
    if s == [] {
      assert all == {};
    } else {
      var front, last := s[..|s| - 1], s[|s| - 1];
      assert s == front + [last];
      assert last !in front;
      SizeOfSet(front, all - {last});
    }
  }

  /**
   A change is left out as empty, as touching no tracked path, as touching excluded ones alone, or as
   touching too many eligible ones, in this order; otherwise it is retained as the set of these.
   */
  lemma VerdictExactly(change: seq<Path>, current: set<Path>, excluded: Exclusion, limit: nat)
    ensures var verdict, tracked, eligible := VerdictOf(change, current, excluded, limit), TrackedIn(change, current), EligibleIn(change, current, excluded);
            && (verdict == Omit(Empty) <==> change == [])
            && (verdict == Omit(NoCurrentPath) <==> change != [] && tracked == {})
            && (verdict == Omit(ExcludedOnly) <==> tracked != {} && eligible == {})
            && (verdict == Omit(Bulk) <==> |eligible| > limit && eligible != {})
            && (verdict.Retain? <==> 1 <= |eligible| <= limit)
            && (verdict.Retain? ==> DuplicateFree(verdict.surviving) && forall p :: p in verdict.surviving <==> p in eligible)
            && verdict != Omit(OlderAfterRetention)
  {
    var survivors, eligible := Survivors(change, current, excluded), EligibleIn(change, current, excluded);
    SurvivorsMeaning(change, current, excluded);
    hide Survivors, DuplicateFree;
    assert forall p :: p in survivors <==> p in eligible;
    SizeOfSet(survivors, eligible);
    assert (forall p <- change :: p !in current) <==> TrackedIn(change, current) == {} by {
      assert forall p :: p in TrackedIn(change, current) <==> p in change && p in current;
    }
    assert survivors == [] <==> eligible == {};
    assert eligible <= TrackedIn(change, current);
  }

  /** How many of the changes are left out for this reason. */
  function Times(changes: seq<seq<Path>>, reason: Reason, current: set<Path>, excluded: Exclusion, limit: nat): nat
    decreases |changes|
  {
    if changes == [] then 0
    else
      var front, last := changes[..|changes| - 1], changes[|changes| - 1];
      var full := |WindowOf(front, current, excluded, limit)| >= RETAINED_DIFFS;
      Times(front, reason, current, excluded, limit)
      + if (if full then reason == OlderAfterRetention else VerdictOf(last, current, excluded, limit) == Omit(reason)) then 1 else 0
  }

  lemma RoomMeansOtherReason(change: seq<Path>, current: set<Path>, excluded: Exclusion, limit: nat)
    ensures VerdictOf(change, current, excluded, limit) != Omit(OlderAfterRetention)
  {
  }

  lemma TimesStep(changes: seq<seq<Path>>, n: nat, reason: Reason, current: set<Path>, excluded: Exclusion, limit: nat)
    requires n < |changes|
    ensures var full, verdict := |WindowOf(changes[..n], current, excluded, limit)| >= RETAINED_DIFFS, VerdictOf(changes[n], current, excluded, limit);
            Times(changes[..n + 1], reason, current, excluded, limit)
            == Times(changes[..n], reason, current, excluded, limit)
               + if (if full then reason == OlderAfterRetention else verdict == Omit(reason)) then 1 else 0
  {
    hide WindowOf, VerdictOf;
    assert changes[..n + 1][..n] == changes[..n];
  }

  /** The counter of each reason. */
  function CounterOf(o: Omitted, reason: Reason): nat {
    match reason
    case Empty => o.empty
    case NoCurrentPath => o.noCurrent
    case ExcludedOnly => o.excludedOnly
    case Bulk => o.bulk
    case OlderAfterRetention => o.older
  }

  lemma NotedCounts(o: Omitted, noted: Reason, reason: Reason)
    ensures CounterOf(Noted(o, noted), reason) == CounterOf(o, reason) + if noted == reason then 1 else 0
  {
  }

  /** Each counter of the window is the number of changes left out for its reason. */
  lemma {:induction false} OmissionsAreCounted(changes: seq<seq<Path>>, reason: Reason, current: set<Path>, excluded: Exclusion, limit: nat)
    ensures CounterOf(OmittedOf(changes, current, excluded, limit), reason) == Times(changes, reason, current, excluded, limit)
    decreases |changes|
  {
    if changes != [] {
      var n := |changes| - 1;
      assert changes[..n + 1] == changes;
      OmissionsAreCounted(changes[..n], reason, current, excluded, limit);
      RoomMeansOtherReason(changes[n], current, excluded, limit);
      hide VerdictOf, WindowOf, OmittedOf, Times, Noted, CounterOf;
      OmittedStep(changes, n, current, excluded, limit);
      TimesStep(changes, n, reason, current, excluded, limit);
      var before, verdict := OmittedOf(changes[..n], current, excluded, limit), VerdictOf(changes[n], current, excluded, limit);
      NotedCounts(before, OlderAfterRetention, reason);
      if verdict.Omit? {
        NotedCounts(before, verdict.reason, reason);
      }
    }
  }
}
