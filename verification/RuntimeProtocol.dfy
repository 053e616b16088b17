/**
 The request-control protocol of the daemon: submitting calls, reader workers,
 view callers and cancellers that share one registry, one bounded job queue and
 one control block per request.

 The protocol is a transition relation. Every step is one atomic operation or one
 lock section of one thread, so a run is an arbitrary interleaving of all threads.
 Wall-clock time appears only as a flag per request that may turn on at any moment.
 */
module RuntimeProtocol {
  import opened Wrappers

  type Tid = nat
  type CtlId = nat   // the identity of a control block in memory

  datatype Phase = Queued | Active | Terminal

  datatype Reason = NoReason | Caller | Deadline | Disconnect

  /** A connection: a reader worker's, renewed at each retirement, or a view's. */
  datatype Conn = ReaderConn(worker: Tid, epoch: nat) | ViewConn(view: nat)

  /** What a submitting call is told. `Response(true)` is an interrupted search. */
  datatype Outcome = Response(interrupted: bool) | Cancelled | DeadlineExceeded | Unexplained

  datatype CancelOutcome = WasQueued | WasActive | AlreadyTerminal

  /** Who moved the request out of `Queued`. History only: no step tests it. */
  datatype Claim = Unclaimed | ByCanceller(tid: Tid) | ByWorker(tid: Tid) | ByView(tid: Tid)

  datatype Control = Control(
    requestId: string,
    creator: Tid,
    isView: bool,
    phase: Phase,
    reason: Reason,
    cancelled: bool,
    stamped: bool,             // cancelled_unix_ms is non-zero
    handle: Option<Conn>,      // active_interrupt
    handleLock: Option<Tid>,   // held across several atomics only by a view activation
    completion: bool,          // the one-shot sender is still there
    sent: Option<Outcome>,
    expired: bool,             // the deadline has passed
    claim: Claim)

  /** What an observer of the whole daemon sees happen. */
  datatype Event =
    | Interrupted(conn: Conn, cause: CtlId, owner: Option<CtlId>)
    | Entered(c: CtlId)
    | Sent(c: CtlId, outcome: Outcome)
    | Returned(c: CtlId, answer: CancelOutcome)
    | Told(c: CtlId, outcome: Outcome)   // the submitting or view call returns
    | Fallback(c: CtlId)

  datatype Shared = Shared(
    controls: map<CtlId, Control>,
    registry: map<string, CtlId>,
    queue: seq<CtlId>,
    owner: map<Conn, CtlId>,   // request being served; for a view, its connection mutex
    hit: set<Conn>,            // connections with a pending interrupt
    log: seq<Event>)

  datatype Config = Config(readers: nat, capacity: nat)

  datatype CancelAt =
    | CasReason | StoreFlag | Stamp | LoadPhase | CasPhase | Interrupt
    | LoadReason | SendResult(out: Outcome) | RemoveEntry

  /** Where a thread continues after `cancel_exact`. */
  datatype Return = ToClient | ToGrace | ToWorker(epoch: nat)

  datatype ViewResult = ViewInterrupted | ViewAnswered

  datatype SubmitAt = Enqueue | Reject | Await | Grace

  datatype ViewAt =
    | Lock | Publish | Claiming | Flag | Gate | Running | Clear(r: ViewResult) | Unlock(r: ViewResult)
    | Finish(r: ViewResult) | Remove(r: ViewResult) | Answer(r: ViewResult) | Explain

  datatype WorkAt =
    | Took | Contend | Expose | Poll | Search | Hide(interrupted: bool) | ReadReason(interrupted: bool)
    | ReadTerminal | Close(out: Outcome) | Send(out: Outcome) | Drop | Retire

  /** Where a thread stands, and the request it is working on. */
  datatype Pc =
    | Idle
    | Register(id: string, target: Option<nat>)                          // admission to the registry
    | Submitting(c: CtlId, at: SubmitAt)                                 // search
    | Cancelling(c: CtlId, why: Reason, step: CancelAt, back: Return)    // cancel_exact
    | Viewing(c: CtlId, v: nat, view: ViewAt)                            // query_view
    | Ready(e: nat)                                                      // reader_worker between jobs
    | Working(c: CtlId, e: nat, work: WorkAt)                            // reader_worker with a job
    | Dead

  datatype State = State(g: Shared, threads: map<Tid, Pc>)

  function PcOf(s: State, t: Tid): Pc {
    if t in s.threads then s.threads[t] else Idle
  }

  function NewControl(id: string, creator: Tid, isView: bool): Control {
    Control(id, creator, isView, Queued, NoReason, false, false, None, None, true, None, false, Unclaimed)
  }

  /** terminal_from_reason */
  function TerminalOf(reason: Reason): Outcome {
    match reason
    case Deadline => DeadlineExceeded
    case Caller => Cancelled
    case Disconnect => Cancelled
    case NoReason => Unexplained
  }

  function Owner(g: Shared, conn: Conn): Option<CtlId> {
    if conn in g.owner then Some(g.owner[conn]) else None
  }

  predicate Registered(g: Shared, c: CtlId)
    requires c in g.controls
  {
    var id := g.controls[c].requestId;
    id in g.registry && g.registry[id] == c
  }

  function Put(g: Shared, c: CtlId, k: Control): Shared {
    g.(controls := g.controls[c := k])
  }

  function Log(g: Shared, event: Event): Shared {
    g.(log := g.log + [event])
  }

  /** InterruptHandle::interrupt, recording whom the connection was serving. */
  function Strike(g: Shared, conn: Conn, cause: CtlId): Shared {
    Log(g, Interrupted(conn, cause, Owner(g, conn))).(hit := g.hit + {conn})
  }

  /** remove_control: only the entry that points at this very control goes. */
  function Unregister(g: Shared, c: CtlId): Shared
    requires c in g.controls
  {
    if Registered(g, c) then g.(registry := g.registry - {g.controls[c].requestId}) else g
  }

  /** SearchControl::send: the sender is taken, so a second call does nothing. */
  function SendOnce(g: Shared, c: CtlId, out: Outcome): Shared
    requires c in g.controls
  {
    var k := g.controls[c];
    if k.completion
    then Log(Put(g, c, k.(completion := false, sent := Some(out))), Sent(c, out))
    else g
  }

  function Release(g: Shared, conn: Conn): Shared {
    g.(owner := g.owner - {conn}, hit := g.hit - {conn})
  }

  function Resume(back: Return, c: CtlId): Pc {
    match back
    case ToClient => Idle
    case ToGrace => Submitting(c, Grace)
    case ToWorker(e) => Ready(e)
  }

  /** The registry section shared by search and query_view; a refusal publishes nothing. */
  predicate RegisterStep(cfg: Config, g: Shared, t: Tid, id: string, target: Option<nat>, g': Shared, pc': Pc) {
    if id in g.registry || |g.registry| >= cfg.readers + cfg.capacity then
      g' == g && pc' == Idle
    else
      (match target
       case None => pc'.Submitting? && pc'.at == Enqueue
       case Some(v) => pc'.Viewing? && pc'.v == v && pc'.view == Lock)
      && pc'.c !in g.controls
      && g' == Put(g, pc'.c, NewControl(id, t, target.Some?)).(registry := g.registry[id := pc'.c])
  }

  /** The submitting call of a search. */
  predicate SubmitStep(cfg: Config, g: Shared, c: CtlId, at: SubmitAt, g': Shared, pc': Pc)
    requires c in g.controls
  {
    match at
    case Enqueue =>
      if |g.queue| < cfg.capacity
      then g' == g.(queue := g.queue + [c]) && pc' == Submitting(c, Await)
      else g' == g && pc' == Submitting(c, Reject)
    case Reject => g' == Unregister(g, c) && pc' == Idle
    case Await =>
      if g.controls[c].sent.Some?
      then g' == Log(g, Told(c, g.controls[c].sent.value)) && pc' == Idle
      else g' == g && g.controls[c].expired && pc' == Cancelling(c, Deadline, CasReason, ToGrace)
    case Grace =>
      g' == Log(g, Told(c, if g.controls[c].sent.Some? then g.controls[c].sent.value else DeadlineExceeded)) && pc' == Idle
  }

  /** cancel_exact, one atomic at a time. */
  predicate CancelStep(g: Shared, t: Tid, c: CtlId, why: Reason, at: CancelAt, back: Return, g': Shared, pc': Pc)
    requires c in g.controls
  {
    var k := g.controls[c];
    match at
    case CasReason =>
      g' == (if k.reason == NoReason then Put(g, c, k.(reason := why)) else g)
      && pc' == Cancelling(c, why, StoreFlag, back)
    case StoreFlag =>
      g' == Put(g, c, k.(cancelled := true)) && pc' == Cancelling(c, why, Stamp, back)
    case Stamp =>
      g' == Put(g, c, k.(stamped := true)) && pc' == Cancelling(c, why, LoadPhase, back)
    case LoadPhase =>
      (match k.phase
       case Queued => g' == g && pc' == Cancelling(c, why, CasPhase, back)
       case Active => g' == g && pc' == Cancelling(c, why, Interrupt, back)
       case Terminal => g' == Log(g, Returned(c, AlreadyTerminal)) && pc' == Resume(back, c))
    case CasPhase =>
      if k.phase == Queued
      then g' == Put(g, c, k.(phase := Terminal, claim := ByCanceller(t))) && pc' == Cancelling(c, why, LoadReason, back)
      else g' == g && pc' == Cancelling(c, why, LoadPhase, back)
    case Interrupt =>
      k.handleLock == None
      && g' == Log(if k.handle.Some? then Strike(g, k.handle.value, c) else g, Returned(c, WasActive))
      && pc' == Resume(back, c)
    case LoadReason =>
      g' == (if k.reason == NoReason then Log(g, Fallback(c)) else g)
      && pc' == Cancelling(c, why, SendResult(TerminalOf(k.reason)), back)
    case SendResult(out) =>
      g' == SendOnce(g, c, out) && pc' == Cancelling(c, why, RemoveEntry, back)
    case RemoveEntry =>
      g' == Log(Unregister(g, c), Returned(c, WasQueued)) && pc' == Resume(back, c)
  }

  /** query_view together with the lease of query_controlled_with_lease. */
  predicate ViewStep(g: Shared, t: Tid, c: CtlId, v: nat, at: ViewAt, g': Shared, pc': Pc)
    requires c in g.controls
  {
    var k := g.controls[c];
    match at
    case Lock =>
      // a refused request, an interrupted wait, or the connection mutex
      || (g' == g && pc' == Viewing(c, v, Finish(ViewAnswered)))
      || ((k.cancelled || k.expired) && g' == g && pc' == Viewing(c, v, Finish(ViewInterrupted)))
      || (ViewConn(v) !in g.owner && g' == g.(owner := g.owner[ViewConn(v) := c]) && pc' == Viewing(c, v, Publish))
    case Publish =>
      k.handleLock == None
      && g' == Put(g, c, k.(handle := Some(ViewConn(v)), handleLock := Some(t)))
      && pc' == Viewing(c, v, Claiming)
    case Claiming =>
      if k.phase == Queued
      then g' == Put(g, c, k.(phase := Active, claim := ByView(t))) && pc' == Viewing(c, v, Flag)
      else g' == Put(g, c, k.(handle := None, handleLock := None)) && pc' == Viewing(c, v, Clear(ViewInterrupted))
    case Flag =>
      var g1 := Put(g, c, k.(handleLock := None));
      g' == (if k.cancelled then Strike(g1, ViewConn(v), c) else g1)
      && pc' == Viewing(c, v, Gate)
    case Gate =>
      if k.cancelled || k.expired
      then g' == g && pc' == Viewing(c, v, Clear(ViewInterrupted))
      else (g' == g && pc' == Viewing(c, v, Clear(ViewAnswered)))
           || (g' == Log(g, Entered(c)) && pc' == Viewing(c, v, Running))
    case Running =>
      g' == g
      && (pc' == Viewing(c, v, Clear(ViewAnswered))
          || ((k.cancelled || k.expired || ViewConn(v) in g.hit) && pc' == Viewing(c, v, Clear(ViewInterrupted))))
    case Clear(r) =>
      k.handleLock == None && g' == Put(g, c, k.(handle := None)) && pc' == Viewing(c, v, Unlock(r))
    case Unlock(r) =>
      g' == Release(g, ViewConn(v)) && pc' == Viewing(c, v, Finish(r))
    case Finish(r) =>
      g' == Put(g, c, k.(phase := Terminal, claim := if k.claim == Unclaimed then ByView(t) else k.claim))
      && pc' == Viewing(c, v, Remove(r))
    case Remove(r) =>
      g' == Unregister(g, c) && pc' == Viewing(c, v, Answer(r))
    case Answer(r) =>
      if k.reason != NoReason || k.expired || r == ViewInterrupted
      then g' == g && pc' == Viewing(c, v, Explain)
      else g' == Log(g, Told(c, Response(false))) && pc' == Idle
    case Explain =>
      // control_protocol_error: the last arm has neither a reason nor a passed deadline
      g' == (if k.reason != NoReason then Log(g, Told(c, TerminalOf(k.reason)))
             else if k.expired then Log(g, Told(c, DeadlineExceeded))
             else Log(Log(g, Fallback(c)), Told(c, Cancelled)))
      && pc' == Idle
  }

  /** reader_worker with a job. */
  predicate WorkStep(g: Shared, t: Tid, c: CtlId, e: nat, at: WorkAt, g': Shared, pc': Pc)
    requires c in g.controls
  {
    var k, conn := g.controls[c], ReaderConn(t, e);
    match at
    case Took =>
      g' == g
      && pc' == if k.expired then Cancelling(c, Deadline, CasReason, ToWorker(e)) else Working(c, e, Contend)
    case Contend =>
      if k.phase == Queued
      then g' == Put(g, c, k.(phase := Active, claim := ByWorker(t))).(owner := g.owner[conn := c])
           && pc' == Working(c, e, Expose)
      else g' == g && pc' == Ready(e)
    case Expose =>
      k.handleLock == None && g' == Put(g, c, k.(handle := Some(conn))) && pc' == Working(c, e, Poll)
    case Poll =>
      g' == (if k.cancelled then Strike(g, conn, c) else g) && pc' == Working(c, e, Search)
    case Search =>
      g' == Log(g, Entered(c)) && pc'.Working? && pc' == Working(c, e, pc'.work) && pc'.work.Hide?
      && (pc'.work.interrupted ==> k.cancelled || conn in g.hit)
    case Hide(interrupted) =>
      k.handleLock == None
      && g' == Release(Put(g, c, k.(handle := None)), conn) && pc' == Working(c, e, ReadReason(interrupted))
    case ReadReason(interrupted) =>
      g' == g
      && pc' == Working(c, e, if k.reason != NoReason then ReadTerminal else Close(Response(interrupted)))
    case ReadTerminal =>
      g' == (if k.reason == NoReason then Log(g, Fallback(c)) else g)
      && pc' == Working(c, e, Close(TerminalOf(k.reason)))
    case Close(out) => g' == Put(g, c, k.(phase := Terminal)) && pc' == Working(c, e, Send(out))
    case Send(out) => g' == SendOnce(g, c, out) && pc' == Working(c, e, Drop)
    case Drop => g' == Unregister(g, c) && pc' == Working(c, e, Retire)
    case Retire =>
      // a slow unwind drops the connection and opens another, or the worker ends
      g' == g && (pc' == Ready(e) || (k.stamped && (pc' == Ready(e + 1) || pc' == Dead)))
  }

  predicate LocalStep(cfg: Config, g: Shared, t: Tid, pc: Pc, g': Shared, pc': Pc) {
    match pc
    case Idle =>
      // a new call, or the lookup at the start of cancel
      g' == g
      && (pc'.Register?
          || (pc'.Cancelling? && pc'.step == CasReason && pc'.back == ToClient && pc'.why != NoReason
              && exists id <- g.registry :: g.registry[id] == pc'.c))
    case Register(id, target) => RegisterStep(cfg, g, t, id, target, g', pc')
    case Submitting(c, at) => c in g.controls && SubmitStep(cfg, g, c, at, g', pc')
    case Cancelling(c, why, at, back) => c in g.controls && CancelStep(g, t, c, why, at, back, g', pc')
    case Viewing(c, v, at) => c in g.controls && ViewStep(g, t, c, v, at, g', pc')
    case Ready(e) =>
      |g.queue| > 0 && g' == g.(queue := g.queue[1..]) && pc' == Working(g.queue[0], e, Took)
    case Working(c, e, at) => c in g.controls && WorkStep(g, t, c, e, at, g', pc')
    case Dead => false
  }

  /** Thread t takes one step; nobody else moves. */
  predicate ThreadStep(cfg: Config, s: State, t: Tid, s': State) {
    t in s'.threads
    && s'.threads == s.threads[t := s'.threads[t]]
    && LocalStep(cfg, s.g, t, PcOf(s, t), s'.g, s'.threads[t])
  }

  /** The deadline of request c passes. */
  predicate ClockStep(s: State, c: CtlId, s': State) {
    c in s.g.controls
    && s' == s.(g := Put(s.g, c, s.g.controls[c].(expired := true)))
  }

  ghost predicate Next(cfg: Config, s: State, s': State) {
    (exists t :: ThreadStep(cfg, s, t, s')) || (exists c :: ClockStep(s, c, s'))
  }

  /** Nothing submitted yet; the first `readers` threads are the reader workers. */
  predicate Init(cfg: Config, s: State) {
    s.g == Shared(map[], map[], [], map[], {}, [])
    && (forall t <- s.threads :: s.threads[t] == if t < cfg.readers then Ready(0) else Idle)
    && (forall t: Tid | t < cfg.readers :: t in s.threads)
  }

  ghost predicate Run(cfg: Config, run: seq<State>) {
    |run| > 0 && Init(cfg, run[0])
    && forall i :: 0 < i < |run| ==> Next(cfg, run[i - 1], run[i])
  }
}
