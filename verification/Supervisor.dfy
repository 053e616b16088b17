/**
 The runtime that keeps one source attached to the session service while it is mounted: bind,
 unbind, restart, outages, timers and disposal, in every interleaving of their stretches
 between two awaits.
 */
module Supervisor {
  import opened Wrappers

  /** Bounds of the retry delay, and the interval of the monitor. */
  datatype Config = Config(initial: nat, maximum: nat, monitor: nat)

  predicate ValidConfig(c: Config) {
    10 <= c.initial <= c.maximum <= 60_000 && 100 <= c.monitor
  }

  /** A source, and the binding it was created for. */
  datatype Source = Source(id: nat, token: nat)

  /** Where the restart in progress stands, if any. */
  datatype Attach =
    | Resting
    | Retiring(token: nat, target: nat)
    | Validating(token: nat)
    | Releasing(token: nat)
    | Starting(token: nat, id: nat)
    | Failing(token: nat, failed: Option<nat>)
    | Ending

  datatype State = State(
    binding: Option<nat>,
    disposed: bool,
    source: Option<Source>,
    timer: Option<nat>,
    ready: bool,
    validated: bool,
    attach: Attach,
    // sources handed to the close chain in order, and how many of those closes have settled
    retired: seq<nat>,
    settled: nat,
    backoff: nat,
    // history: tokens and sources made so far, sources closed by a failed restart, and retry delays
    // since the last success
    tokens: nat,
    created: nat,
    discarded: set<nat>,
    delays: seq<nat>)

  datatype Event =
    | Bind
    | Unbind(token: nat)
    | RestartCalled
    | TimerFires(live: bool)
    | HealthAnswered(ok: bool)
    | OutageReported
    | CloseSettles
    | RetirementAwaited
    | Validated
    | Creates
    | Started(live: bool)
    | AttachThrows
    | FailureSettles
    | Finally
    | DisposeCalled

  function Initial(c: Config): State {
    State(None, false, None, None, false, false, Resting, [], 0, c.initial, 0, 0, {}, [])
  }

  // ---------- The methods between awaits ----------

  function Schedule(v: State, delay: nat): State {
    if v.disposed || v.binding.None? then v else v.(timer := Some(delay))
  }

  function Larger(a: nat, b: nat): nat {
    if a > b then a else b
  }

  function Smaller(a: nat, b: nat): nat {
    if a < b then a else b
  }

  function ScheduleBackoff(v: State, c: Config): State {
    Schedule(v.(backoff := Smaller(c.maximum, Larger(c.initial, v.backoff * 2)), delays := v.delays + [v.backoff]), v.backoff)
  }

  function MarkOutage(v: State, c: Config): State {
    if v.disposed || v.binding.None? then v
    else ScheduleBackoff(v.(ready := false, validated := false), c)
  }

  function Retire(v: State): State {
    if v.source.None? then v else v.(retired := v.retired + [v.source.value.id], source := None)
  }

  /** restart, for a bound runtime: one restart at a time, which begins by retiring the source. */
  function Restart(v: State): State {
    if v.attach != Resting || v.binding.None? then v
    else
      var now := Retire(v.(timer := None, ready := false, validated := false));
      now.(attach := Retiring(v.binding.value, |now.retired|))
  }

  predicate Current(v: State, token: nat) {
    !v.disposed && v.binding == Some(token)
  }

  function OnTimer(v: State, live: bool, c: Config): Option<State> {
    if v.timer.None? then None
    else
      var now := v.(timer := None);
      Some(if v.disposed || v.binding.None? then now
           else if !v.ready || v.source.None? then Restart(now)
           else if live then now
           else MarkOutage(now, c))
  }

  function OnStarted(v: State, live: bool, c: Config): Option<State> {
    if !v.attach.Starting? then None
    else if !Current(v, v.attach.token) || !live then Some(v.(attach := Failing(v.attach.token, Some(v.attach.id))))
    else
      Some(Schedule(v.(source := Some(Source(v.attach.id, v.attach.token)), ready := true, attach := Ending, backoff := c.initial, delays := []),
                    c.monitor))
  }

  function OnThrows(v: State): Option<State> {
    match v.attach
    case Validating(token) => Some(v.(attach := Failing(token, None)))
    case Releasing(token) => Some(v.(attach := Failing(token, None)))
    case Starting(token, id) => Some(v.(attach := Failing(token, Some(id))))
    case _ => None
  }

  function OnFailureSettles(v: State, c: Config): Option<State> {
    if !v.attach.Failing? then None
    else
      var now := v.(ready := false, validated := false, attach := Ending,
                    discarded := v.discarded + if v.attach.failed.Some? then {v.attach.failed.value} else {});
      Some(if Current(v, v.attach.token) then ScheduleBackoff(now, c) else now)
  }

  function Next(v: State, e: Event, c: Config): Option<State> {
    match e
    case Bind =>
      if v.disposed then None
      else Some(Schedule(v.(binding := Some(v.tokens), tokens := v.tokens + 1, ready := false, validated := false), 0))
    case Unbind(token) =>
      if v.binding != Some(token) then None
      else Some(Retire(v.(binding := None, timer := None, ready := false, validated := false)))
    case RestartCalled => if v.disposed || v.binding.None? then None else Some(Restart(v))
    case TimerFires(live) => OnTimer(v, live, c)
    case HealthAnswered(ok) => Some(if ok then Schedule(v, c.monitor) else MarkOutage(v, c))
    case OutageReported => Some(MarkOutage(v, c))
    case CloseSettles => if v.settled < |v.retired| then Some(v.(settled := v.settled + 1)) else None
    case RetirementAwaited =>
      if v.attach.Retiring? && v.settled >= v.attach.target then Some(v.(attach := Validating(v.attach.token))) else None
    case Validated =>
      if v.attach.Validating? then Some(v.(validated := true, attach := Releasing(v.attach.token))) else None
    case Creates =>
      if !v.attach.Releasing? then None
      else if !Current(v, v.attach.token) then Some(v.(attach := Failing(v.attach.token, None)))
      else Some(v.(attach := Starting(v.attach.token, v.created), created := v.created + 1))
    case Started(live) => OnStarted(v, live, c)
    case AttachThrows => OnThrows(v)
    case FailureSettles => OnFailureSettles(v, c)
    case Finally =>
      if v.attach != Ending then None
      else
        var now := v.(attach := Resting);
        Some(if !v.disposed && v.binding.Some? && !v.ready && v.timer.None? then Schedule(now, 0) else now)
    case DisposeCalled =>
      if v.disposed then None
      else Some(Retire(v.(disposed := true, binding := None, timer := None, ready := false, validated := false)))
  }

  // ---------- The invariant ----------

  /** The close of this source has settled. */
  predicate ClosedFor(v: State, id: nat) {
    id in v.discarded || exists k :: 0 <= k < v.settled && k < |v.retired| && v.retired[k] == id
  }

  predicate IsRetired(retired: seq<nat>, id: nat) {
    exists k :: 0 <= k < |retired| && retired[k] == id
  }

  /** Where a source made so far can be. */
  predicate Accounted(v: State, id: nat) {
    || id in v.discarded
    || IsRetired(v.retired, id)
    || (v.source.Some? && v.source.value.id == id)
    || (v.attach.Starting? && v.attach.id == id)
    || (v.attach.Failing? && v.attach.failed == Some(id))
  }

  ghost predicate SourcesInv(v: State) {
    && v.settled <= |v.retired|
    && (forall id :: 0 <= id < v.created ==> Accounted(v, id))
    && (v.attach.Retiring? ==> v.attach.target == |v.retired|)
    && (!v.attach.Resting? && !v.attach.Ending? ==> v.source.None?)
    && (!v.attach.Resting? && !v.attach.Ending? && !v.attach.Retiring? ==> v.settled == |v.retired|)
  }

  /** The event is an outage that the runtime takes note of. */
  predicate MarksOutage(v: State, e: Event) {
    && v.binding.Some? && !v.disposed
    && (e == OutageReported || e == HealthAnswered(false) || (e == TimerFires(false) && v.timer.Some? && v.ready && v.source.Some?))
  }

  /** outage: one was marked since the last validation; seen: there was a validation. */
  ghost predicate ReadyInv(v: State, seen: bool, outage: bool) {
    && (v.disposed ==> v.binding.None?)
    && (v.binding.Some? ==> v.binding.value < v.tokens)
    && (v.ready ==> v.binding.Some? && v.source.Some? && v.source.value.token == v.binding.value)
    && (v.ready || v.attach.Releasing? || v.attach.Starting? ==> seen)
    && (v.ready ==> (v.validated <==> !outage))
    && ((v.attach.Releasing? || v.attach.Starting?) && Current(v, v.attach.token) ==> (v.validated <==> !outage))
    && ((v.attach.Retiring? || v.attach.Validating? || v.attach.Releasing? || v.attach.Starting? || v.attach.Failing?) ==> !v.ready && v.attach.token < v.tokens)
    && (v.timer.Some? ==> v.binding.Some?)
  }

  ghost predicate BackoffInv(v: State, c: Config) {
    && c.initial <= v.backoff <= c.maximum
    && (forall i :: 0 <= i < |v.delays| ==> c.initial <= v.delays[i] <= v.backoff)
    && (forall i, j :: 0 <= i < j < |v.delays| ==> v.delays[i] <= v.delays[j])
    && Doubling(v.delays, v.backoff, c)
    && (v.timer.Some? ==> v.timer.value == 0 || v.timer.value == c.monitor || (v.delays != [] && v.timer.value == v.delays[|v.delays| - 1]))
  }

  /** Each delay is twice the one before it, up to the maximum; the first is the initial one. */
  ghost predicate Doubling(delays: seq<nat>, next: nat, c: Config) {
    && (if delays == [] then next == c.initial else delays[0] == c.initial && next == Smaller(c.maximum, 2 * delays[|delays| - 1]))
    && (forall i :: 0 < i < |delays| ==> delays[i] == Smaller(c.maximum, 2 * delays[i - 1]))
  }

  /** A bound runtime that is not ready has a timer armed or a restart under way. */
  ghost predicate NotStranded(v: State) {
    v.binding.Some? && !v.ready ==> v.timer.Some? || v.attach != Resting
  }

  ghost predicate Inv(v: State, c: Config, seen: bool, outage: bool) {
    SourcesInv(v) && ReadyInv(v, seen, outage) && BackoffInv(v, c) && NotStranded(v)
  }

  lemma RetireAccounts(v: State, id: nat)
    requires Accounted(v, id)
    ensures Accounted(Retire(v), id)
  {
    hide IsRetired;
    if v.source.Some? {
      Appended(v.retired, v.source.value.id);
    }
  }

  lemma Appended(retired: seq<nat>, id: nat)
    ensures forall x :: IsRetired(retired + [id], x) <==> IsRetired(retired, x) || x == id
  {
    forall x
      ensures IsRetired(retired + [id], x) <==> IsRetired(retired, x) || x == id
    {
      if IsRetired(retired, x) {
        var k :| 0 <= k < |retired| && retired[k] == x;
        assert (retired + [id])[k] == x;
      }
      if x == id {
        assert (retired + [id])[|retired|] == x;
      }
    }
  }

  /** The source of this id does not get lost by the step. */
  lemma StaysAccounted(v: State, e: Event, c: Config, id: nat)
    requires SourcesInv(v) && Next(v, e, c).Some? && id < Next(v, e, c).value.created
    ensures Accounted(Next(v, e, c).value, id)
  {
    hide IsRetired, Restart, Retire, OnTimer, MarkOutage;
    if id < v.created {
      assert Accounted(v, id);
      match e
      case Unbind(_) => RetireAccounts(v.(binding := None, timer := None, ready := false, validated := false), id);
      case DisposeCalled => RetireAccounts(v.(disposed := true, binding := None, timer := None, ready := false, validated := false), id);
      case RestartCalled => RestartAccounts(v, id);
      case TimerFires(live) => TimerAccounts(v, live, c, id);
      case HealthAnswered(_) => OutageAccounts(v, c, id);
      case OutageReported => OutageAccounts(v, c, id);
      case _ =>
    } else {
      OnlyCreatesMakesSources(v, e, c);
    }
  }

  lemma OutageAccounts(v: State, c: Config, id: nat)
    requires Accounted(v, id)
    ensures Accounted(MarkOutage(v, c), id)
  {
    hide IsRetired;
  }

  lemma RestartAccounts(v: State, id: nat)
    requires Accounted(v, id)
    ensures Accounted(Restart(v), id)
  {
    hide IsRetired;
    RetireAccounts(v.(timer := None, ready := false, validated := false), id);
  }

  lemma TimerAccounts(v: State, live: bool, c: Config, id: nat)
    requires Accounted(v, id) && OnTimer(v, live, c).Some?
    ensures Accounted(OnTimer(v, live, c).value, id)
  {
    hide IsRetired, Restart, MarkOutage;
    RestartAccounts(v.(timer := None), id);
    OutageAccounts(v.(timer := None), c, id);
  }

  lemma StepKeepsSources(v: State, e: Event, c: Config)
    requires SourcesInv(v) && Next(v, e, c).Some?
    ensures SourcesInv(Next(v, e, c).value)
  {
    forall id | 0 <= id < Next(v, e, c).value.created
      ensures Accounted(Next(v, e, c).value, id)
    {
      StaysAccounted(v, e, c, id);
    }
    hide Accounted;
  }

  lemma RestartKeepsReady(v: State, seen: bool, outage: bool)
    requires ReadyInv(v, seen, outage)
    ensures ReadyInv(Restart(v), seen, outage)
  {
  }

  lemma OutageKeepsReady(v: State, c: Config, seen: bool, outage: bool)
    requires ReadyInv(v, seen, outage)
    ensures ReadyInv(MarkOutage(v, c), seen, outage || (v.binding.Some? && !v.disposed))
  {
  }

  lemma TimerKeepsReady(v: State, live: bool, c: Config, seen: bool, outage: bool)
    requires ReadyInv(v, seen, outage) && OnTimer(v, live, c).Some?
    ensures ReadyInv(OnTimer(v, live, c).value, seen, outage || MarksOutage(v, TimerFires(live)))
  {
    hide Restart, MarkOutage;
    RestartKeepsReady(v.(timer := None), seen, outage);
    OutageKeepsReady(v.(timer := None), c, seen, outage);
  }

  lemma StepKeepsReady(v: State, e: Event, c: Config, seen: bool, outage: bool)
    requires ReadyInv(v, seen, outage) && Next(v, e, c).Some?
    ensures ReadyInv(Next(v, e, c).value, seen || e == Validated, e != Validated && (outage || MarksOutage(v, e)))
  {
    hide Restart, MarkOutage, OnTimer;
    match e
    case RestartCalled => RestartKeepsReady(v, seen, outage);
    case HealthAnswered(_) => OutageKeepsReady(v, c, seen, outage);
    case OutageReported => OutageKeepsReady(v, c, seen, outage);
    case TimerFires(live) => TimerKeepsReady(v, live, c, seen, outage);
    case _ =>
  }

  /** The delay is used, and the next one is twice as long within the bounds. */
  ghost predicate Delayed(v: State, w: State, c: Config) {
    w.delays == v.delays + [v.backoff] && w.backoff == Smaller(c.maximum, Larger(c.initial, v.backoff * 2))
  }

  ghost predicate SameDelays(v: State, w: State) {
    w.delays == v.delays && w.backoff == v.backoff
  }

  /** A step that uses a delay arms the timer with it; any other timer is old, immediate or the monitor's. */
  ghost predicate Arms(v: State, w: State, c: Config) {
    w.timer.Some? ==>
      || (Delayed(v, w, c) && w.timer.value == v.backoff)
      || (!Delayed(v, w, c) && w.timer == v.timer && w.delays == v.delays)
      || w.timer.value == 0 || w.timer.value == c.monitor
  }

  lemma OutageArms(v: State, c: Config)
    ensures Arms(v, MarkOutage(v, c), c)
  {
  }

  lemma TimerArms(v: State, live: bool, c: Config)
    requires OnTimer(v, live, c).Some?
    ensures Arms(v, OnTimer(v, live, c).value, c)
  {
  }

  lemma StepArms(v: State, e: Event, c: Config)
    requires Next(v, e, c).Some?
    ensures Arms(v, Next(v, e, c).value, c)
  {
    hide MarkOutage, OnTimer;
    match e
    case HealthAnswered(_) => OutageArms(v, c);
    case OutageReported => OutageArms(v, c);
    case TimerFires(live) => TimerArms(v, live, c);
    case _ =>
  }

  lemma OutageDelays(v: State, c: Config)
    ensures SameDelays(v, MarkOutage(v, c)) || Delayed(v, MarkOutage(v, c), c)
  {
  }

  lemma RestartDelays(v: State)
    ensures SameDelays(v, Restart(v))
  {
  }

  lemma TimerDelays(v: State, live: bool, c: Config)
    requires OnTimer(v, live, c).Some?
    ensures SameDelays(v, OnTimer(v, live, c).value) || Delayed(v, OnTimer(v, live, c).value, c)
  {
    hide Restart, MarkOutage;
    RestartDelays(v.(timer := None));
    OutageDelays(v.(timer := None), c);
  }

  /** Delays are only ever added, but for the success of a restart, which starts over at the initial delay. */
  lemma OnlySuccessResets(v: State, e: Event, c: Config)
    requires Next(v, e, c).Some?
    ensures var w := Next(v, e, c).value;
            || SameDelays(v, w)
            || Delayed(v, w, c)
            || (e == Started(true) && v.attach.Starting? && w.ready && w.delays == [] && w.backoff == c.initial)
  {
    hide Restart, MarkOutage, OnTimer;
    match e
    case RestartCalled => RestartDelays(v);
    case HealthAnswered(_) => OutageDelays(v, c);
    case OutageReported => OutageDelays(v, c);
    case TimerFires(live) => TimerDelays(v, live, c);
    case _ =>
  }

  lemma StepKeepsBackoff(v: State, e: Event, c: Config)
    requires BackoffInv(v, c) && ValidConfig(c) && Next(v, e, c).Some?
    ensures BackoffInv(Next(v, e, c).value, c)
  {
    hide Next;
    OnlySuccessResets(v, e, c);
    StepArms(v, e, c);
  }

  lemma StepKeepsTimer(v: State, e: Event, c: Config)
    requires (v.timer.Some? ==> v.binding.Some?) && (v.disposed ==> v.binding.None?) && NotStranded(v) && Next(v, e, c).Some?
    ensures NotStranded(Next(v, e, c).value)
  {
  }

  // ---------- Runs ----------

  ghost predicate Run(states: seq<State>, events: seq<Event>, c: Config) {
    && ValidConfig(c)
    && |states| == |events| + 1
    && states[0] == Initial(c)
    && forall i :: 0 <= i < |events| ==> Next(states[i], events[i], c) == Some(states[i + 1])
  }

  lemma InitialInv(c: Config)
    requires ValidConfig(c)
    ensures Inv(Initial(c), c, false, false)
  {
  }

  /** There was a validation among the first n events. */
  ghost predicate Seen(events: seq<Event>, n: nat)
    requires n <= |events|
  {
    exists k :: 0 <= k < n && events[k] == Validated
  }

  /** Event k marked an outage, and there was no validation after it. */
  ghost predicate OutageStands(states: seq<State>, events: seq<Event>, k: nat, n: nat)
    requires k < n <= |events| && |events| <= |states|
  {
    MarksOutage(states[k], events[k]) && forall j :: k < j < n ==> events[j] != Validated
  }

  ghost predicate OutageSince(states: seq<State>, events: seq<Event>, n: nat)
    requires n <= |events| && |events| <= |states|
  {
    exists k :: 0 <= k < n && OutageStands(states, events, k, n)
  }

  lemma SeenStep(events: seq<Event>, n: nat)
    requires n < |events|
    ensures Seen(events, n + 1) <==> Seen(events, n) || events[n] == Validated
  {
  }

  lemma OutageStep(states: seq<State>, events: seq<Event>, n: nat)
    requires n < |events| && |events| <= |states|
    ensures OutageSince(states, events, n + 1) <==> events[n] != Validated && (OutageSince(states, events, n) || MarksOutage(states[n], events[n]))
  {
    if OutageSince(states, events, n + 1) {
      var k :| 0 <= k < n + 1 && OutageStands(states, events, k, n + 1);
      assert k < n ==> OutageStands(states, events, k, n);
    }
    if OutageSince(states, events, n) && events[n] != Validated {
      var k :| 0 <= k < n && OutageStands(states, events, k, n);
      assert OutageStands(states, events, k, n + 1);
    }
    if MarksOutage(states[n], events[n]) && events[n] != Validated {
      assert OutageStands(states, events, n, n + 1);
    }
  }

  lemma {:induction false} RunKeepsInv(states: seq<State>, events: seq<Event>, c: Config, n: nat)
    requires Run(states, events, c) && n < |states|
    ensures Inv(states[n], c, Seen(events, n), OutageSince(states, events, n))
    decreases n
  {
    hide Next, SourcesInv, ReadyInv, BackoffInv, NotStranded, Seen, OutageSince, MarksOutage;
    if n == 0 {
      NothingSeen(states, events);
      InitialInv(c);
    } else {
      RunKeepsInv(states, events, c, n - 1);
      var v, e := states[n - 1], events[n - 1];
      assert Next(v, e, c) == Some(states[n - 1 + 1]);
      SeenStep(events, n - 1);
      OutageStep(states, events, n - 1);
      StepKeepsSources(v, e, c);
      StepKeepsReady(v, e, c, Seen(events, n - 1), OutageSince(states, events, n - 1));
      StepKeepsBackoff(v, e, c);
      TimerMeansBound(v, Seen(events, n - 1), OutageSince(states, events, n - 1));
      StepKeepsTimer(v, e, c);
    }
  }

  lemma NothingSeen(states: seq<State>, events: seq<Event>)
    requires |events| <= |states|
    ensures !Seen(events, 0) && !OutageSince(states, events, 0)
  {
  }

  lemma TimerMeansBound(v: State, seen: bool, outage: bool)
    requires ReadyInv(v, seen, outage)
    ensures (v.timer.Some? ==> v.binding.Some?) && (v.disposed ==> v.binding.None?)
  {
  }

  /** A source is created only when the close of every source made before it has settled. */
  lemma OneSourceAtATime(states: seq<State>, events: seq<Event>, c: Config, n: nat)
    requires Run(states, events, c) && n < |events| && states[n + 1].created > states[n].created
    ensures forall id :: 0 <= id < states[n].created ==> ClosedFor(states[n], id)
  {
    RunKeepsInv(states, events, c, n);
    assert Next(states[n], events[n], c) == Some(states[n + 1]);
    OnlyCreatesMakesSources(states[n], events[n], c);
    var v := states[n];
    forall id | 0 <= id < v.created
      ensures ClosedFor(v, id)
    {
      assert Accounted(v, id);
    }
  }

  lemma OnlyCreatesMakesSources(v: State, e: Event, c: Config)
    requires Next(v, e, c).Some? && Next(v, e, c).value.created > v.created
    ensures e == Creates && v.attach.Releasing?
  {
  }

  /** Event v is the last validation among the first n. */
  ghost predicate LastValidation(events: seq<Event>, v: nat, n: nat)
    requires n <= |events|
  {
    v < n && events[v] == Validated && forall j :: v < j < n ==> events[j] != Validated
  }

  lemma {:induction false} LastValidationExists(events: seq<Event>, n: nat) returns (v: nat)
    requires n <= |events| && Seen(events, n)
    ensures LastValidation(events, v, n)
    decreases n
  {
    if events[n - 1] == Validated {
      v := n - 1;
    } else {
      v := LastValidationExists(events, n - 1);
    }
  }

  /** Some event after v and before n marked an outage. */
  ghost predicate OutageBetween(states: seq<State>, events: seq<Event>, v: nat, n: nat)
    requires n <= |events| && |events| <= |states|
  {
    exists k :: v < k < n && MarksOutage(states[k], events[k])
  }

  lemma SinceTheLastValidation(states: seq<State>, events: seq<Event>, v: nat, n: nat)
    requires n <= |events| && |events| <= |states| && LastValidation(events, v, n)
    ensures OutageSince(states, events, n) <==> OutageBetween(states, events, v, n)
  {
    if OutageSince(states, events, n) {
      var k :| 0 <= k < n && OutageStands(states, events, k, n);
      assert k >= v && !MarksOutage(states[v], events[v]);
      assert MarksOutage(states[k], events[k]);
    }
    if OutageBetween(states, events, v, n) {
      var k :| v < k < n && MarksOutage(states[k], events[k]);
      assert OutageStands(states, events, k, n);
    }
  }

  /**
   Ready means a current binding and a source made for it, and a validation before. Capabilities
   count as validated exactly when no event since the last validation marked an outage.
   */
  lemma ReadyMeansAttached(states: seq<State>, events: seq<Event>, c: Config, n: nat)
    requires Run(states, events, c) && n < |states| && states[n].ready
    ensures !states[n].disposed && states[n].binding.Some? && states[n].source.Some? && states[n].source.value.token == states[n].binding.value
    ensures exists v :: LastValidation(events, v, n) && (states[n].validated <==> !OutageBetween(states, events, v, n))
  {
    RunKeepsInv(states, events, c, n);
    hide Run, SourcesInv, BackoffInv, NotStranded;
    var v := LastValidationExists(events, n);
    SinceTheLastValidation(states, events, v, n);
  }

  /** What ends the ready state: an outage, another binding, a restart, the end. */
  predicate EndsReady(v: State, e: Event) {
    MarksOutage(v, e) || e.Bind? || e.Unbind? || e.RestartCalled? || e.DisposeCalled?
  }

  lemma ReadyStays(v: State, e: Event, c: Config, seen: bool, outage: bool)
    requires ReadyInv(v, seen, outage) && Next(v, e, c).Some? && v.ready && !EndsReady(v, e)
    ensures Next(v, e, c).value.ready && Next(v, e, c).value.validated == v.validated
  {
  }

  /** No probe of the monitor mends it: ready without validated capabilities lasts until an outage, another binding, a restart or the end. */
  lemma {:induction false} UnvalidatedLasts(states: seq<State>, events: seq<Event>, c: Config, n: nat, m: nat)
    requires Run(states, events, c) && n <= m < |states| && states[n].ready && !states[n].validated
    requires forall k :: n <= k < m ==> !EndsReady(states[k], events[k])
    ensures states[m].ready && !states[m].validated
    decreases m
  {
    hide Next, EndsReady;
    if m > n {
      UnvalidatedLasts(states, events, c, n, m - 1);
      RunKeepsInv(states, events, c, m - 1);
      assert Next(states[m - 1], events[m - 1], c) == Some(states[m - 1 + 1]);
      hide Run, SourcesInv, ReadyInv, BackoffInv, NotStranded;
      ReadyStays(states[m - 1], events[m - 1], c, Seen(events, m - 1), OutageSince(states, events, m - 1));
    }
  }

  /** An outage reported while the new source starts: the runtime is ready, and its capabilities are not validated. */
  lemma ReadyWithoutValidation(c: Config)
    requires ValidConfig(c)
    ensures exists states: seq<State>, events: seq<Event> :: Run(states, events, c) && |states| > 0 && states[|states| - 1].ready && !states[|states| - 1].validated
  {
    var events := [Bind, RestartCalled, RetirementAwaited, Validated, OutageReported, Creates, Started(true)];
    var s0 := Initial(c);
    var s1 := Next(s0, events[0], c).value;
    var s2 := Next(s1, events[1], c).value;
    var s3 := Next(s2, events[2], c).value;
    var s4 := Next(s3, events[3], c).value;
    var s5 := Next(s4, events[4], c).value;
    var s6 := Next(s5, events[5], c).value;
    var s7 := Next(s6, events[6], c).value;
    var states := [s0, s1, s2, s3, s4, s5, s6, s7];
    assert s7.ready && !s7.validated;
    assert Run(states, events, c);
    assert states[|states| - 1] == s7;
  }

  /**
   Retry delays start at the initial one and double up to the maximum until a success resets them.
   An armed timer is immediate, the monitor's, or waits for the last of these delays.
   */
  lemma DelaysAreBounded(states: seq<State>, events: seq<Event>, c: Config, n: nat)
    requires Run(states, events, c) && n < |states|
    ensures forall i :: 0 <= i < |states[n].delays| ==> c.initial <= states[n].delays[i] <= c.maximum
    ensures forall i, j :: 0 <= i < j < |states[n].delays| ==> states[n].delays[i] <= states[n].delays[j]
    ensures c.initial <= states[n].backoff <= c.maximum
    ensures var delays := states[n].delays;
            && (delays != [] ==> delays[0] == c.initial)
            && (forall i :: 0 < i < |delays| ==> delays[i] == if 2 * delays[i - 1] < c.maximum then 2 * delays[i - 1] else c.maximum)
    ensures states[n].timer.Some? ==>
              var armed, delays := states[n].timer.value, states[n].delays;
              armed == 0 || armed == c.monitor || (delays != [] && armed == delays[|delays| - 1])
  {
    RunKeepsInv(states, events, c, n);
  }

  /** An outage that is noted leaves the runtime unready, and arms the timer with a further delay. */
  lemma OutageArmsTheDelay(states: seq<State>, events: seq<Event>, c: Config, n: nat)
    requires Run(states, events, c) && n < |events| && MarksOutage(states[n], events[n])
    ensures var v, w := states[n], states[n + 1];
            && !w.ready && !w.validated
            && |w.delays| == |v.delays| + 1 && w.delays[..|v.delays|] == v.delays
            && w.timer == Some(w.delays[|v.delays|])
  {
    assert Next(states[n], events[n], c) == Some(states[n + 1]);
  }

  /** A bound runtime that is not ready is never left without a timer or a restart. */
  lemma NeverStranded(states: seq<State>, events: seq<Event>, c: Config, n: nat)
    requires Run(states, events, c) && n < |states| && states[n].binding.Some? && !states[n].ready
    ensures states[n].timer.Some? || states[n].attach != Resting
  {
    RunKeepsInv(states, events, c, n);
  }

  /** A restart that succeeds, and a health check that does, arm the timer of the monitor. */
  lemma SuccessArmsTheMonitor(states: seq<State>, events: seq<Event>, c: Config, n: nat)
    requires Run(states, events, c) && n < |events|
    ensures events[n] == HealthAnswered(true) && states[n].binding.Some? && !states[n].disposed ==>
              states[n + 1] == states[n].(timer := Some(c.monitor))
    ensures events[n] == Started(true) && states[n].attach.Starting? && Current(states[n], states[n].attach.token) ==>
              var w := states[n + 1];
              && w.ready && w.timer == Some(c.monitor) && w.delays == [] && w.backoff == c.initial
              && w.source == Some(Source(states[n].attach.id, states[n].attach.token))
  {
    assert Next(states[n], events[n], c) == Some(states[n + 1]);
  }

  /** Without a binding there is no source, no timer and no readiness. */
  predicate UnboundInv(v: State) {
    && (v.disposed ==> v.binding.None?)
    && (v.binding.None? ==> v.source.None? && v.timer.None? && !v.ready)
  }

  lemma TimerKeepsUnbound(v: State, live: bool, c: Config)
    requires UnboundInv(v) && OnTimer(v, live, c).Some?
    ensures UnboundInv(OnTimer(v, live, c).value)
  {
  }

  lemma OutageKeepsUnbound(v: State, c: Config)
    requires UnboundInv(v)
    ensures UnboundInv(MarkOutage(v, c)) && UnboundInv(Restart(v))
  {
  }

  lemma StepKeepsUnbound(v: State, e: Event, c: Config)
    requires UnboundInv(v) && Next(v, e, c).Some?
    ensures UnboundInv(Next(v, e, c).value)
  {
    hide OnTimer, MarkOutage, Restart;
    OutageKeepsUnbound(v, c);
    if e.TimerFires? && OnTimer(v, e.live, c).Some? {
      TimerKeepsUnbound(v, e.live, c);
    }
  }

  /** A runtime that is unbound or disposed has no source, no timer and no readiness. */
  lemma {:induction false} UnboundIsQuiet(states: seq<State>, events: seq<Event>, c: Config, n: nat)
    requires Run(states, events, c) && n < |states|
    ensures states[n].disposed ==> states[n].binding.None?
    ensures states[n].binding.None? ==> states[n].source.None? && states[n].timer.None? && !states[n].ready
    decreases n
  {
    hide Next;
    if n > 0 {
      UnboundIsQuiet(states, events, c, n - 1);
      assert Next(states[n - 1], events[n - 1], c) == Some(states[n - 1 + 1]);
      StepKeepsUnbound(states[n - 1], events[n - 1], c);
    }
  }

  /** A restart that fails for the current binding arms the timer with a further delay, and has closed its source. */
  lemma FailureArmsTheDelay(states: seq<State>, events: seq<Event>, c: Config, n: nat)
    requires Run(states, events, c) && n < |events| && events[n] == FailureSettles
    requires states[n].attach.Failing? && Current(states[n], states[n].attach.token)
    ensures var v, w := states[n], states[n + 1];
            && !w.ready && !w.validated && w.attach == Ending
            && |w.delays| == |v.delays| + 1 && w.delays[..|v.delays|] == v.delays
            && w.timer == Some(w.delays[|v.delays|])
            && (v.attach.failed.Some? ==> v.attach.failed.value in w.discarded)
  {
    assert Next(states[n], events[n], c) == Some(states[n + 1]);
  }
}
