/**
 The live side of the feeder: notifications buffer sessions, a serial queue of jobs scans the
 corpus and drains the buffer. Every step is one stretch of code between two awaits, so the
 events of a run may fall between any two steps of a job.
 */
module LiveDrain {
  import opened Wrappers
  import opened Texts

  type SessionId = Text

  datatype Phase = Idle | Subscribing | Listing | Scanning | Draining | Live | Errored | Paused | Closing | Closed

  datatype Job = Sync | Drain

  /** Where a drain stands: at its loop condition, reading a snapshot of the buffer, or settled. */
  datatype DrainAt = Checking | Reading(pending: set<SessionId>) | Done | Threw(lost: set<SessionId>)

  /** The job in progress. A thrown job has run its finally block but not yet its catch block. */
  datatype Running =
    | Nothing
    | AwaitingList
    | Syncing(remaining: set<SessionId>)
    | FinalDrain(at: DrainAt)
    | DrainJob(at: DrainAt)
    | Thrown(lost: set<SessionId>)

  datatype State = State(
    phase: Phase,
    started: bool,
    paused: bool,
    closed: bool,
    buffered: set<SessionId>,
    drainScheduled: bool,
    queue: seq<Job>,
    running: Running,
    starting: nat,
    pausing: nat,
    // history: notified, and not read since, while the source stayed active
    owed: set<SessionId>)

  datatype Event =
    | Notified(s: SessionId)
    | BadNotification
    | StartCalled
    | StartContinues(subscribed: bool)
    | SyncCalled
    | PauseCalled
    | PauseSettles
    | CloseCalled
    | CloseSettles
    | JobStarts
    | Listed(ids: set<SessionId>)
    | ReadBegins(s: SessionId)
    | Moves
    | Throws

  const INITIAL := State(Idle, false, false, false, {}, false, [], Nothing, 0, 0, {})

  predicate Active(v: State) {
    !v.paused && !v.closed
  }

  // ---------- The methods between awaits ----------

  function RecordFailure(v: State): State {
    v.(paused := true, phase := Errored, owed := {})
  }

  function ScheduleDrain(v: State): State {
    if v.drainScheduled || v.closed || v.paused then v
    else v.(drainScheduled := true, queue := v.queue + [Drain])
  }

  /** #onLive for a created or changed session, with the bound on the buffer. */
  function OnLive(v: State, s: SessionId, maxBuffered: nat): State {
    if v.closed || v.paused then v
    else if s !in v.buffered && |v.buffered| >= maxBuffered then RecordFailure(v)
    else
      var now := v.(buffered := v.buffered + {s}, owed := v.owed + {s});
      if now.phase == Live then ScheduleDrain(now) else now
  }

  function OnStart(v: State): State {
    if v.started && !v.paused then v
    else v.(started := true, paused := false, phase := Subscribing, starting := v.starting + 1)
  }

  function OnStartContinues(v: State, subscribed: bool): Option<State> {
    if v.starting == 0 then None
    else
      var now := v.(starting := v.starting - 1);
      Some(if subscribed then now.(queue := now.queue + [Sync]) else RecordFailure(now))
  }

  function OnClose(v: State): State {
    if v.closed then v else v.(closed := true, paused := true, phase := Closing, owed := {})
  }

  /** The head of the queue begins, unless the source was closed. */
  function OnJobStarts(v: State): Option<State> {
    if v.running != Nothing || v.queue == [] then None
    else
      var now := v.(queue := v.queue[1..]);
      Some(if v.closed then now
           else match v.queue[0]
                case Drain => now.(running := DrainJob(Checking))
                case Sync => if Active(v) then now.(phase := Listing, running := AwaitingList) else now.(running := Thrown({})))
  }

  /** One read begins, of a session that the running loop still has to read. */
  function OnRead(v: State, s: SessionId): Option<State> {
    if !Active(v) then None
    else
      match v.running
      case Syncing(remaining) =>
        if s in remaining then Some(v.(running := Syncing(remaining - {s}), owed := v.owed - {s})) else None
      case FinalDrain(Reading(pending)) =>
        if s in pending then Some(v.(running := FinalDrain(Reading(pending - {s})), owed := v.owed - {s})) else None
      case DrainJob(Reading(pending)) =>
        if s in pending then Some(v.(running := DrainJob(Reading(pending - {s})), owed := v.owed - {s})) else None
      case _ => None
  }

  /** The loop condition of #drainBuffered, and what follows it without an await. */
  function DrainMoves(v: State, at: DrainAt): (State, DrainAt) {
    match at
    case Checking =>
      if v.buffered == {} then (v, Done)
      else if !Active(v) then (v, Threw({}))
      else (v.(buffered := {}), Reading(v.buffered))
    case Reading(pending) => (v, if pending == {} then Checking else if Active(v) then at else Threw(pending))
    case Done => (v, Done)
    case Threw(lost) => (v, at)
  }

  /** The finally block of a drain job. */
  function Finally(v: State): State {
    var now := v.(drainScheduled := false);
    if now.buffered != {} && now.phase == Live then ScheduleDrain(now) else now
  }

  /** The end of #runCorpusSync, after its final drain has returned. */
  function GoLive(v: State): State {
    if !Active(v) then v.(running := Thrown({}))
    else
      var now := v.(phase := Live, running := Nothing);
      if now.buffered != {} then ScheduleDrain(now) else now
  }

  function OnMoves(v: State): State {
    match v.running
    case Syncing(remaining) =>
      if remaining == {} then v.(phase := Draining, running := FinalDrain(Checking))
      else if Active(v) then v
      else v.(running := Thrown({}))
    case FinalDrain(Done) => GoLive(v)
    case FinalDrain(Threw(lost)) => v.(running := Thrown(lost))
    case FinalDrain(at) => var (now, at') := DrainMoves(v, at); now.(running := FinalDrain(at'))
    case DrainJob(Done) => Finally(v).(running := Nothing)
    case DrainJob(Threw(lost)) => Finally(v).(running := Thrown(lost))
    case DrainJob(at) => var (now, at') := DrainMoves(v, at); now.(running := DrainJob(at'))
    case Thrown(_) => (if Active(v) then RecordFailure(v) else v).(running := Nothing)
    case _ => v
  }

  /** A list, a state read, a session read or a commit fails. */
  function OnThrows(v: State): Option<State> {
    match v.running
    case AwaitingList => Some(v.(running := Thrown({})))
    case Syncing(_) => Some(v.(running := Thrown({})))
    case FinalDrain(Reading(pending)) => Some(v.(running := FinalDrain(Threw(pending))))
    case DrainJob(Reading(pending)) => Some(v.(running := DrainJob(Threw(pending))))
    case _ => None
  }

  function Next(v: State, e: Event, maxBuffered: nat): Option<State> {
    match e
    case Notified(s) => Some(OnLive(v, s, maxBuffered))
    case BadNotification => Some(if v.closed || v.paused then v else RecordFailure(v))
    case StartCalled => if v.closed then None else Some(OnStart(v))
    case StartContinues(subscribed) => OnStartContinues(v, subscribed)
    case SyncCalled => if v.closed || !v.started || v.paused then None else Some(v.(queue := v.queue + [Sync]))
    case PauseCalled => if v.closed || v.paused then None else Some(v.(paused := true, owed := {}, pausing := v.pausing + 1))
    case PauseSettles => if v.pausing == 0 then None else Some(v.(pausing := v.pausing - 1, phase := if v.closed then v.phase else Paused))
    case CloseCalled => Some(OnClose(v))
    case CloseSettles => if v.closed then Some(v.(phase := Closed, buffered := {})) else None
    case JobStarts => OnJobStarts(v)
    case Listed(ids) => if v.running == AwaitingList then Some(v.(phase := Scanning, running := Syncing(ids))) else None
    case ReadBegins(s) => OnRead(v, s)
    case Moves => Some(OnMoves(v))
    case Throws => OnThrows(v)
  }

  // ---------- The invariant ----------

  function Drains(queue: seq<Job>): nat {
    if queue == [] then 0 else (if queue[0] == Drain then 1 else 0) + Drains(queue[1..])
  }

  /** A drain that has not reached its finally block. */
  predicate DrainInProgress(v: State) {
    v.running.DrainJob?
  }

  /** What the running job has taken out of the buffer and still holds. */
  function Held(r: Running): set<SessionId> {
    match r
    case FinalDrain(Reading(pending)) => pending
    case FinalDrain(Threw(lost)) => lost
    case DrainJob(Reading(pending)) => pending
    case DrainJob(Threw(lost)) => lost
    case Thrown(lost) => lost
    case _ => {}
  }

  /** While it is not closed, the source has one drain waiting or in progress when it says so, and none otherwise. */
  ghost predicate DrainsCounted(v: State) {
    !v.closed ==> Drains(v.queue) + (if DrainInProgress(v) then 1 else 0) == if v.drainScheduled then 1 else 0
  }

  ghost predicate Inv(v: State) {
    && DrainsCounted(v)
    && (v.closed ==> v.paused)
    && (Active(v) && v.phase == Live && v.buffered != {} ==> v.drainScheduled)
    && v.owed <= v.buffered + Held(v.running)
    && (!Active(v) ==> v.owed == {})
  }

  lemma {:induction false} OneMoreJob(queue: seq<Job>, job: Job)
    ensures Drains(queue + [job]) == Drains(queue) + if job == Drain then 1 else 0
    decreases |queue|
  {
    if queue == [] {
      assert ([] + [job])[1..] == [];
    } else {
      OneMoreJob(queue[1..], job);
      assert (queue + [job])[1..] == queue[1..] + [job];
    }
  }

  lemma ScheduleKeeps(v: State)
    requires DrainsCounted(v)
    ensures DrainsCounted(ScheduleDrain(v))
    ensures Active(v) ==> ScheduleDrain(v).drainScheduled
  {
    OneMoreJob(v.queue, Drain);
  }

  /** Every step keeps the invariant. */
  lemma StepKeepsInv(v: State, e: Event, maxBuffered: nat)
    requires Inv(v) && Next(v, e, maxBuffered).Some?
    ensures Inv(Next(v, e, maxBuffered).value)
  {
    hide Drains, OnMoves, OnJobStarts;
    OneMoreJob(v.queue, Sync);
    match e
    case Notified(s) =>
      ScheduleKeeps(v.(buffered := v.buffered + {s}, owed := v.owed + {s}));
    case Moves =>
      MovesKeepInv(v);
    case JobStarts =>
      JobStartKeepsInv(v);
    case _ =>
  }

  lemma JobStartKeepsInv(v: State)
    requires Inv(v) && OnJobStarts(v).Some?
    ensures Inv(OnJobStarts(v).value)
  {
  }

  lemma MovesKeepInv(v: State)
    requires Inv(v)
    ensures Inv(OnMoves(v))
  {
    hide Drains;
    match v.running
    case FinalDrain(Done) => ScheduleKeeps(v.(phase := Live, running := Nothing));
    case DrainJob(Done) => ScheduleKeeps(v.(drainScheduled := false, running := Nothing));
    case DrainJob(Threw(lost)) => ScheduleKeeps(v.(drainScheduled := false, running := Thrown(lost)));
    case _ =>
  }

  // ---------- Runs ----------

  /** The states of a run: each follows from the one before by its event. */
  ghost predicate Run(states: seq<State>, events: seq<Event>, maxBuffered: nat) {
    && |states| == |events| + 1
    && states[0] == INITIAL
    && forall i :: 0 <= i < |events| ==> Next(states[i], events[i], maxBuffered) == Some(states[i + 1])
  }

  lemma {:induction false} RunKeepsInv(states: seq<State>, events: seq<Event>, maxBuffered: nat, n: nat)
    requires Run(states, events, maxBuffered) && n < |states|
    ensures Inv(states[n])
    decreases n
  {
    hide Next, Inv;
    if n == 0 {
      InitialInv();
    } else {
      RunKeepsInv(states, events, maxBuffered, n - 1);
      assert Next(states[n - 1], events[n - 1], maxBuffered) == Some(states[n - 1 + 1]);
      StepKeepsInv(states[n - 1], events[n - 1], maxBuffered);
    }
  }

  lemma InitialInv()
    ensures Inv(INITIAL)
  {
  }

  /** Live with a session in the buffer means that a drain is waiting or in progress. */
  lemma LiveMeansScheduled(states: seq<State>, events: seq<Event>, maxBuffered: nat, n: nat)
    requires Run(states, events, maxBuffered) && n < |states|
    requires Active(states[n]) && states[n].phase == Live && states[n].buffered != {}
    ensures Drain in states[n].queue || DrainInProgress(states[n])
  {
    RunKeepsInv(states, events, maxBuffered, n);
    DrainIsThere(states[n].queue);
  }

  lemma {:induction false} DrainIsThere(queue: seq<Job>)
    ensures Drains(queue) > 0 ==> Drain in queue
    decreases |queue|
  {
    if queue != [] {
      DrainIsThere(queue[1..]);
      assert queue == [queue[0]] + queue[1..];
    }
  }

  /** Not active at some point of the interval: the source left, by a failure, a pause or a close. */
  ghost predicate Left(states: seq<State>, from: nat, until: nat)
    requires until < |states|
  {
    exists k :: from <= k <= until && !Active(states[k])
  }

  ghost predicate ReadBetween(events: seq<Event>, from: nat, until: nat, s: SessionId)
    requires until <= |events|
  {
    exists k :: from <= k < until && events[k] == ReadBegins(s)
  }

  /** What is owed stays owed until it is read or the source leaves. */
  lemma OwedStays(v: State, e: Event, maxBuffered: nat, s: SessionId)
    requires Next(v, e, maxBuffered).Some? && s in v.owed && e != ReadBegins(s) && Active(Next(v, e, maxBuffered).value)
    ensures s in Next(v, e, maxBuffered).value.owed
  {
  }

  lemma {:induction false} OwedUntilRead(states: seq<State>, events: seq<Event>, maxBuffered: nat, from: nat, until: nat, s: SessionId)
    requires Run(states, events, maxBuffered) && from <= until < |states| && s in states[from].owed
    requires !Left(states, from, until) && !ReadBetween(events, from, until, s)
    ensures s in states[until].owed
    decreases until
  {
    hide Next;
    if until > from {
      OwedUntilRead(states, events, maxBuffered, from, until - 1, s);
      assert Next(states[until - 1], events[until - 1], maxBuffered) == Some(states[until - 1 + 1]);
      assert events[until - 1] != ReadBegins(s) && Active(states[until]);
      OwedStays(states[until - 1], events[until - 1], maxBuffered, s);
    }
  }

  /** Nothing queued, nothing running, nothing buffered. */
  predicate Quiet(v: State) {
    v.queue == [] && v.running == Nothing
  }

  /**
   No notification is lost: whenever an active source is live with nothing queued or running, each
   notification it accepted was followed by a read of its session begun later, or the source left
   in between.
   */
  lemma EveryNotificationIsRead(states: seq<State>, events: seq<Event>, maxBuffered: nat, n: nat, m: nat, s: SessionId)
    requires Run(states, events, maxBuffered) && n < m < |states| && events[n] == Notified(s) && Active(states[n + 1])
    requires states[m].phase == Live && Quiet(states[m])
    ensures ReadBetween(events, n + 1, m, s) || Left(states, n + 1, m)
  {
    RunKeepsInv(states, events, maxBuffered, n);
    RunKeepsInv(states, events, maxBuffered, m);
    if !Left(states, n + 1, m) {
      assert Active(states[m]);
      assert s in states[n + 1].owed;
      if !ReadBetween(events, n + 1, m, s) {
        OwedUntilRead(states, events, maxBuffered, n + 1, m, s);
      }
    }
  }

  // ---------- A sync reads every listed session ----------

  /** Of the listed sessions, those that the running sync no longer has before it have been read. */
  ghost predicate ReadSoFar(v: State, events: seq<Event>, n: nat, k: nat, ids: set<SessionId>)
    requires k <= |events|
  {
    && (v.running.Syncing? ==> forall s <- ids :: s in v.running.remaining || ReadBetween(events, n + 1, k, s))
    && (v.running.FinalDrain? ==> forall s <- ids :: ReadBetween(events, n + 1, k, s))
  }

  predicate ListedOnlyAt(events: seq<Event>, n: nat, m: nat) {
    n < m <= |events| && events[n].Listed? && forall i :: n < i < m ==> !events[i].Listed?
  }

  lemma SyncStep(v: State, e: Event, maxBuffered: nat)
    requires Next(v, e, maxBuffered).Some? && !e.Listed?
    ensures var w := Next(v, e, maxBuffered).value;
            && (w.running.Syncing? ==> v.running.Syncing? && forall s <- v.running.remaining :: s in w.running.remaining || e == ReadBegins(s))
            && (w.running.FinalDrain? ==> v.running.FinalDrain? || (v.running.Syncing? && v.running.remaining == {}))
  {
    hide Drains;
  }

  lemma ReadStays(events: seq<Event>, from: nat, until: nat, s: SessionId)
    requires from < until <= |events|
    requires ReadBetween(events, from, until - 1, s) || events[until - 1] == ReadBegins(s)
    ensures ReadBetween(events, from, until, s)
  {
  }

  lemma ReadsGoOn(states: seq<State>, events: seq<Event>, maxBuffered: nat, n: nat, k: nat, ids: set<SessionId>)
    requires n + 1 < k < |states| && |states| == |events| + 1
    requires Next(states[k - 1], events[k - 1], maxBuffered) == Some(states[k]) && !events[k - 1].Listed?
    requires ReadSoFar(states[k - 1], events, n, k - 1, ids)
    ensures ReadSoFar(states[k], events, n, k, ids)
  {
    SyncStep(states[k - 1], events[k - 1], maxBuffered);
    hide Next, ReadBetween;
    forall s | s in ids && (ReadBetween(events, n + 1, k - 1, s) || events[k - 1] == ReadBegins(s))
      ensures ReadBetween(events, n + 1, k, s)
    {
      ReadStays(events, n + 1, k, s);
    }
  }

  lemma {:induction false} ReadsAreCounted(states: seq<State>, events: seq<Event>, maxBuffered: nat, n: nat, k: nat)
    requires Run(states, events, maxBuffered) && n < k < |states| && ListedOnlyAt(events, n, k)
    ensures ReadSoFar(states[k], events, n, k, events[n].ids)
    decreases k
  {
    assert Next(states[k - 1], events[k - 1], maxBuffered) == Some(states[k - 1 + 1]);
    if k > n + 1 {
      hide Next, ReadSoFar;
      ReadsAreCounted(states, events, maxBuffered, n, k - 1);
      ReadsGoOn(states, events, maxBuffered, n, k, events[n].ids);
    }
  }

  /** A corpus sync drains the buffer, and goes live after that, only once every session it listed was read. */
  lemma SyncReadsEveryone(states: seq<State>, events: seq<Event>, maxBuffered: nat, n: nat, m: nat, s: SessionId)
    requires Run(states, events, maxBuffered) && n < m < |states| && ListedOnlyAt(events, n, m)
    requires states[m].running.FinalDrain? && s in events[n].ids
    ensures ReadBetween(events, n + 1, m, s)
  {
    ReadsAreCounted(states, events, maxBuffered, n, m);
    hide Next;
  }

  /** The source goes live from such a drain alone. */
  lemma LiveComesFromSync(v: State, e: Event, maxBuffered: nat)
    requires Next(v, e, maxBuffered).Some? && v.phase != Live && Next(v, e, maxBuffered).value.phase == Live
    ensures v.running == FinalDrain(Done) && Active(v)
  {
    hide Drains;
  }

  /** Whenever the source goes live, every session that its last corpus sync listed has been read. */
  lemma LiveMeansEveryoneRead(states: seq<State>, events: seq<Event>, maxBuffered: nat, n: nat, m: nat, s: SessionId)
    requires Run(states, events, maxBuffered) && n < m < |events| && ListedOnlyAt(events, n, m)
    requires states[m].phase != Live && states[m + 1].phase == Live && s in events[n].ids
    ensures ReadBetween(events, n + 1, m, s)
  {
    hide Next;
    assert Next(states[m], events[m], maxBuffered) == Some(states[m + 1]);
    LiveComesFromSync(states[m], events[m], maxBuffered);
    SyncReadsEveryone(states, events, maxBuffered, n, m, s);
  }

  /** Once closed, a source stays closed, and begins no read. */
  lemma {:induction false} ClosedReadsNothing(states: seq<State>, events: seq<Event>, maxBuffered: nat, n: nat, m: nat, s: SessionId)
    requires Run(states, events, maxBuffered) && n <= m < |states| && states[n].closed
    ensures states[m].closed && !ReadBetween(events, n, m, s)
    decreases m
  {
    hide Next;
    if n < m {
      ClosedReadsNothing(states, events, maxBuffered, n, m - 1, s);
      assert Next(states[m - 1], events[m - 1], maxBuffered) == Some(states[m - 1 + 1]);
      RunKeepsInv(states, events, maxBuffered, m - 1);
      ClosedStep(states[m - 1], events[m - 1], maxBuffered, s);
    }
  }

  lemma ClosedStep(v: State, e: Event, maxBuffered: nat, s: SessionId)
    requires Inv(v) && v.closed && Next(v, e, maxBuffered).Some?
    ensures Next(v, e, maxBuffered).value.closed && e != ReadBegins(s)
  {
    hide Drains;
  }
}
