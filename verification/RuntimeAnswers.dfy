/**
 What callers are told over every run: a request cancelled before its reason is read is
 answered by that reason, and a cancel that was acknowledged is never lost.
 */
module RuntimeAnswers {
  import opened Wrappers
  import opened RuntimeProtocol
  import opened RuntimeInvariants
  import opened RuntimeSafety

  // ---------- The reason decides the answer ----------

  /** A worker that has won the request and still has the reason to read. */
  predicate BeforeReading(pc: Pc) {
    Serving(pc) || (pc.Working? && (pc.work.ReadReason? || pc.work.ReadTerminal?))
  }

  /** Nobody has read the reason of c in order to answer it. */
  ghost predicate Undecided(s: State, c: CtlId)
    requires c in s.g.controls
  {
    var k := s.g.controls[c];
    if k.isView then PcOf(s, k.creator).Viewing? && PcOf(s, k.creator).c == c
    else k.sent == None
         && (k.claim.ByWorker? ==> BeforeReading(PcOf(s, k.claim.tid)) && PcOf(s, k.claim.tid).c == c)
  }

  /** A worker on its way to answer with the reason. */
  predicate OnItsWay(pc: Pc, c: CtlId, reason: Reason) {
    pc.Working? && pc.c == c
    && (BeforeReading(pc) || ((pc.work.Close? || pc.work.Send?) && SpeaksFor(reason, pc.work.out)))
  }

  /** The reason is set, and whatever answers c will tell of it. */
  predicate Committed(s: State, c: CtlId, reason: Reason) {
    c in s.g.controls && reason != NoReason && s.g.controls[c].reason == reason
    && var k := s.g.controls[c];
       && (k.sent.Some? ==> SpeaksFor(reason, k.sent.value))
       && (k.sent == None && k.claim.ByWorker? ==> OnItsWay(PcOf(s, k.claim.tid), c, reason))
  }

  lemma UndecidedIsCommitted(cfg: Config, s: State, c: CtlId)
    requires Inv(cfg, s) && c in s.g.controls && s.g.controls[c].reason != NoReason && Undecided(s, c)
    ensures Committed(s, c, s.g.controls[c].reason)
  {
    assert ControlOk(s.g.controls[c]);
  }

  /** A request newly claimed for a worker is claimed by this thread, which is about to expose it. */
  predicate ClaimsAs(g: Shared, t: Tid, g': Shared, pc': Pc, c: CtlId)
    requires c in g.controls && c in g'.controls
  {
    g'.controls[c].claim.ByWorker? && g.controls[c].claim != g'.controls[c].claim ==>
      g'.controls[c].claim == ByWorker(t) && g'.controls[c].sent == g.controls[c].sent
      && pc'.Working? && pc'.c == c && pc'.work == Expose
  }

  lemma CancelClaims(g: Shared, t: Tid, d: CtlId, why: Reason, at: CancelAt, back: Return, g': Shared, pc': Pc, c: CtlId)
    requires d in g.controls && CancelStep(g, t, d, why, at, back, g', pc') && c in g.controls && c in g'.controls
    ensures ClaimsAs(g, t, g', pc', c)
  {
  }

  lemma ViewClaims(g: Shared, t: Tid, d: CtlId, v: nat, at: ViewAt, g': Shared, pc': Pc, c: CtlId)
    requires d in g.controls && ViewStep(g, t, d, v, at, g', pc') && c in g.controls && c in g'.controls
    ensures ClaimsAs(g, t, g', pc', c)
  {
    hide Registered, TerminalOf, Owner;
    assert c != d ==> g'.controls[c] == g.controls[c];
  }

  lemma WorkClaims(g: Shared, t: Tid, d: CtlId, e: nat, at: WorkAt, g': Shared, pc': Pc, c: CtlId)
    requires d in g.controls && WorkStep(g, t, d, e, at, g', pc') && c in g.controls && c in g'.controls
    ensures ClaimsAs(g, t, g', pc', c)
  {
  }

  /** Only the worker that wins a request in Contend becomes its claimant. */
  lemma ClaimedInContend(cfg: Config, g: Shared, t: Tid, pc: Pc, g': Shared, pc': Pc, c: CtlId)
    requires LocalStep(cfg, g, t, pc, g', pc') && c in g.controls && c in g'.controls
    ensures ClaimsAs(g, t, g', pc', c)
  {
    hide CancelStep, ViewStep, WorkStep, ClaimsAs;
    match pc
    case Cancelling(d, why, at, back) => CancelClaims(g, t, d, why, at, back, g', pc', c);
    case Viewing(d, v, at) => ViewClaims(g, t, d, v, at, g', pc', c);
    case Working(d, e, at) => WorkClaims(g, t, d, e, at, g', pc', c);
    case _ => SameControlClaims(g, t, g', pc', c);
  }

  lemma SameControlClaims(g: Shared, t: Tid, g': Shared, pc': Pc, c: CtlId)
    requires c in g.controls && c in g'.controls && g'.controls[c] == g.controls[c]
    ensures ClaimsAs(g, t, g', pc', c)
  {
  }

  /** One step of the claimant itself. */
  lemma ClaimantGoesOn(g: Shared, t: Tid, c: CtlId, e: nat, at: WorkAt, g': Shared, pc': Pc, reason: Reason)
    requires c in g.controls && WorkStep(g, t, c, e, at, g', pc')
    requires reason != NoReason && g.controls[c].reason == reason
    requires OnItsWay(Working(c, e, at), c, reason) && g.controls[c].sent == None && g.controls[c].completion
    ensures c in g'.controls
    ensures (OnItsWay(pc', c, reason) && g'.controls[c].sent == None) || (g'.controls[c].sent.Some? && SpeaksFor(reason, g'.controls[c].sent.value))
  {
  }

  /** What an inductive step may use of the request it follows. */
  lemma StepFacts(cfg: Config, s: State, t: Tid, s': State, c: CtlId)
    requires Inv(cfg, s) && ThreadStep(cfg, s, t, s') && c in s.g.controls
    ensures c in s'.g.controls && ControlOk(s.g.controls[c]) && ControlOk(s'.g.controls[c])
    ensures Evolves(s.g.controls[c], s'.g.controls[c])
    ensures forall u: Tid :: u != t ==> EvolvesBeside(s.g.controls[c], s'.g.controls[c], u)
  {
    hide LocalInv, LocalStep, ControlOk, EvolvesBeside;
    assert LocalInv(s.g, t, PcOf(s, t));
    ThreadStepInv(cfg, s, t, s');
    StepKeeps(cfg, s.g, t, PcOf(s, t), s'.g, PcOf(s', t));
    StepEvolves(cfg, s, s', c);
    forall u: Tid | u != t
      ensures EvolvesBeside(s.g.controls[c], s'.g.controls[c], u)
    {
      assert Rely(s.g, s'.g, u);
    }
  }

  lemma ThreadKeepsCommitted(cfg: Config, s: State, t: Tid, s': State, c: CtlId, reason: Reason)
    requires Inv(cfg, s) && ThreadStep(cfg, s, t, s') && Committed(s, c, reason)
    ensures Committed(s', c, reason)
  {
    hide Inv, LocalStep, SpeaksFor, OnItsWay, ControlOk, EvolvesBeside, ClaimsAs;
    StepFacts(cfg, s, t, s', c);
    ClaimedInContend(cfg, s.g, t, PcOf(s, t), s'.g, PcOf(s', t), c);
    var k, k' := s.g.controls[c], s'.g.controls[c];
    AnswerOfOther(k, k', reason);
    if k.sent == None {
      if k.claim == ByWorker(t) {
        ClaimantSteps(cfg, s, t, s', c, reason);
      } else if k.claim.ByWorker? {
        ClaimStays(k, k', k.claim.tid);
      } else if k'.claim.ByWorker? {
        JustClaimed(s.g, t, s'.g, PcOf(s', t), c, reason);
      }
    }
  }

  lemma AnswerOfOther(k: Control, k': Control, reason: Reason)
    requires ControlOk(k') && Evolves(k, k') && k.reason == reason
    ensures reason != NoReason && k'.sent.Some? && !k'.claim.ByWorker? ==> SpeaksFor(reason, k'.sent.value)
  {
  }

  lemma ClaimStays(k: Control, k': Control, w: Tid)
    requires EvolvesBeside(k, k', w) && k.claim == ByWorker(w)
    ensures k'.claim == k.claim && k'.sent == k.sent
  {
  }

  lemma JustClaimed(g: Shared, t: Tid, g': Shared, pc': Pc, c: CtlId, reason: Reason)
    requires c in g.controls && c in g'.controls && ClaimsAs(g, t, g', pc', c)
    requires g'.controls[c].claim.ByWorker? && g.controls[c].claim != g'.controls[c].claim
    ensures g'.controls[c].claim == ByWorker(t) && g'.controls[c].sent == g.controls[c].sent && OnItsWay(pc', c, reason)
  {
  }

  lemma ClaimantSteps(cfg: Config, s: State, t: Tid, s': State, c: CtlId, reason: Reason)
    requires ThreadStep(cfg, s, t, s') && c in s.g.controls && ControlOk(s.g.controls[c])
    requires reason != NoReason && s.g.controls[c].reason == reason
    requires OnItsWay(PcOf(s, t), c, reason) && s.g.controls[c].sent == None
    ensures c in s'.g.controls
    ensures (OnItsWay(PcOf(s', t), c, reason) && s'.g.controls[c].sent == None) || (s'.g.controls[c].sent.Some? && SpeaksFor(reason, s'.g.controls[c].sent.value))
  {
    var pc := PcOf(s, t);
    assert pc.Working? && pc.c == c;
    assert WorkStep(s.g, t, c, pc.e, pc.work, s'.g, PcOf(s', t));
    hide WorkStep, OnItsWay;
    ClaimantGoesOn(s.g, t, c, pc.e, pc.work, s'.g, PcOf(s', t), reason);
  }

  lemma NextKeepsCommitted(cfg: Config, s: State, s': State, c: CtlId, reason: Reason)
    requires Inv(cfg, s) && Next(cfg, s, s') && Committed(s, c, reason)
    ensures Committed(s', c, reason)
  {
    hide Inv, ThreadStep;
    if t: Tid :| ThreadStep(cfg, s, t, s') {
      ThreadKeepsCommitted(cfg, s, t, s', c, reason);
    }
  }

  lemma {:induction false} StaysCommitted(cfg: Config, run: seq<State>, i: nat, j: nat, c: CtlId, reason: Reason)
    requires Run(cfg, run) && i <= j < |run| && Committed(run[i], c, reason)
    ensures Committed(run[j], c, reason)
    decreases j
  {
    hide Inv, Next, Committed;
    if i < j {
      StaysCommitted(cfg, run, i, j - 1, c, reason);
      RunInv(cfg, run, j - 1);
      NextKeepsCommitted(cfg, run[j - 1], run[j], c, reason);
    }
  }

  /**
   Once a search request has a reason that nobody has read yet, whoever answers it later, the worker
   that serves it included, sends the error of that reason and never a response.
   */
  lemma ReasonDecidesTheAnswer(cfg: Config, run: seq<State>, i: nat, j: nat, c: CtlId)
    requires Run(cfg, run) && i <= j < |run|
    requires c in run[i].g.controls && run[i].g.controls[c].reason != NoReason && Undecided(run[i], c)
    ensures c in run[j].g.controls && run[j].g.controls[c].reason == run[i].g.controls[c].reason
    ensures var sent := run[j].g.controls[c].sent; sent.Some? ==> SpeaksFor(run[i].g.controls[c].reason, sent.value)
    ensures forall out :: Sent(c, out) in run[j].g.log ==> SpeaksFor(run[i].g.controls[c].reason, out)
  {
    RunInv(cfg, run, i);
    UndecidedIsCommitted(cfg, run[i], c);
    StaysCommitted(cfg, run, i, j, c, run[i].g.controls[c].reason);
    RunInv(cfg, run, j);
    assert forall event <- run[j].g.log :: EventOk(run[j].g, event);
  }

  // ---------- What the calls return ----------

  /** Events are added at the end, and a view call with a reason is told of it. */
  ghost predicate Tells(g: Shared, g': Shared) {
    g.log <= g'.log
    && forall n, c, out :: |g.log| <= n < |g'.log| && g'.log[n] == Told(c, out) && c in g.controls ==>
         (g.controls[c].isView && g.controls[c].reason != NoReason ==> SpeaksFor(g.controls[c].reason, out))
  }

  lemma SubmitTells(cfg: Config, g: Shared, c: CtlId, at: SubmitAt, g': Shared, pc': Pc)
    requires c in g.controls && !g.controls[c].isView && SubmitStep(cfg, g, c, at, g', pc')
    ensures Tells(g, g')
  {
  }

  lemma CancelTells(g: Shared, t: Tid, c: CtlId, why: Reason, at: CancelAt, back: Return, g': Shared, pc': Pc)
    requires c in g.controls && CancelStep(g, t, c, why, at, back, g', pc')
    ensures Tells(g, g')
  {
  }

  lemma ViewTells(g: Shared, t: Tid, c: CtlId, v: nat, at: ViewAt, g': Shared, pc': Pc)
    requires c in g.controls && ViewStep(g, t, c, v, at, g', pc')
    ensures Tells(g, g')
  {
  }

  lemma WorkTells(g: Shared, t: Tid, c: CtlId, e: nat, at: WorkAt, g': Shared, pc': Pc)
    requires c in g.controls && WorkStep(g, t, c, e, at, g', pc')
    ensures Tells(g, g')
  {
  }

  lemma StepTells(cfg: Config, g: Shared, t: Tid, pc: Pc, g': Shared, pc': Pc)
    requires LocalStep(cfg, g, t, pc, g', pc')
    requires HasControl(pc) ==> pc.c in g.controls && PcInv(g.controls[pc.c], t, pc)
    ensures Tells(g, g')
  {
    hide SubmitStep, CancelStep, ViewStep, WorkStep, Tells, CancelInv, ViewInv, WorkInv;
    match pc
    case Submitting(c, at) => SubmitTells(cfg, g, c, at, g', pc');
    case Cancelling(c, why, at, back) => CancelTells(g, t, c, why, at, back, g', pc');
    case Viewing(c, v, at) => ViewTells(g, t, c, v, at, g', pc');
    case Working(c, e, at) => WorkTells(g, t, c, e, at, g', pc');
    case _ => QuietTells(g, g');
  }

  lemma QuietTells(g: Shared, g': Shared)
    requires g'.log == g.log
    ensures Tells(g, g')
  {
  }

  lemma NextTells(cfg: Config, s: State, s': State, c: CtlId)
    requires Inv(cfg, s) && Next(cfg, s, s') && c in s.g.controls && s.g.controls[c].isView && s.g.controls[c].reason != NoReason
    ensures s.g.log <= s'.g.log
    ensures forall n, out :: |s.g.log| <= n < |s'.g.log| && s'.g.log[n] == Told(c, out) ==> SpeaksFor(s.g.controls[c].reason, out)
  {
    if t: Tid :| ThreadStep(cfg, s, t, s') {
      assert LocalInv(s.g, t, PcOf(s, t));
      hide LocalStep, SharedInv, HolderInv, OwnerInv, PcInv;
      StepTells(cfg, s.g, t, PcOf(s, t), s'.g, PcOf(s', t));
    }
  }

  /** From the moment a view request has a reason, its call is told of that reason and of nothing else. */
  lemma {:induction false} ViewCallsAreToldTheReason(cfg: Config, run: seq<State>, i: nat, j: nat, c: CtlId)
    requires Run(cfg, run) && i <= j < |run|
    requires c in run[i].g.controls && run[i].g.controls[c].isView && run[i].g.controls[c].reason != NoReason
    ensures run[i].g.log <= run[j].g.log
    ensures forall n, out :: |run[i].g.log| <= n < |run[j].g.log| && run[j].g.log[n] == Told(c, out)
              ==> SpeaksFor(run[i].g.controls[c].reason, out)
    decreases j
  {
    hide Inv, Next;
    if i < j {
      ViewCallsAreToldTheReason(cfg, run, i, j - 1, c);
      FirstReasonStands(cfg, run, i, j - 1, c);
      RunInv(cfg, run, j - 1);
      NextTells(cfg, run[j - 1], run[j], c);
    }
  }

  /**
   What calls return, in every run: a search the completion sent to it, or the deadline's error once
   that has passed; a view its result, or an error that its reason or its passed deadline explains.
   "Cancelled" is for a caller's or a disconnect's reason alone.
   */
  lemma AnswersAreExplained(cfg: Config, run: seq<State>, i: nat, c: CtlId, out: Outcome)
    requires Run(cfg, run) && i < |run| && (Told(c, out) in run[i].g.log || Sent(c, out) in run[i].g.log)
    ensures c in run[i].g.controls
    ensures var k := run[i].g.controls[c];
            && (out == Cancelled ==> k.reason == Caller || k.reason == Disconnect)
            && (out == DeadlineExceeded ==> k.reason == Deadline || (k.expired && Told(c, out) in run[i].g.log))
            && (out == DeadlineExceeded && Sent(c, out) in run[i].g.log ==> k.reason == Deadline)
            && out != Unexplained && out != Response(true)
            && (Told(c, out) in run[i].g.log && !k.isView && k.sent != Some(out) ==> out == DeadlineExceeded && k.reason != NoReason)
  {
    RunInv(cfg, run, i);
    assert ControlOk(run[i].g.controls[c]);
    assert forall event <- run[i].g.log :: EventOk(run[i].g, event);
  }

  /**
   What a cancel is told: "queued", it took the request out of the queue itself and answered it;
   "active", a worker or a view call has the request; "terminal", the request is over. In each case
   the request carries a reason and the time of its cancellation from then on.
   */
  lemma CancelAnswersMean(cfg: Config, run: seq<State>, i: nat, c: CtlId, answer: CancelOutcome)
    requires Run(cfg, run) && i < |run| && Returned(c, answer) in run[i].g.log
    ensures c in run[i].g.controls
    ensures var k := run[i].g.controls[c];
            && k.cancelled && k.stamped && k.reason != NoReason
            && match answer
               case WasQueued => k.claim.ByCanceller? && k.sent.Some?
               case WasActive => k.claim.ByWorker? || k.claim.ByView?
               case AlreadyTerminal => k.phase == Terminal
  {
    RunInv(cfg, run, i);
    assert ControlOk(run[i].g.controls[c]);
    assert forall event <- run[i].g.log :: EventOk(run[i].g, event);
  }

  // ---------- No acknowledged cancel is lost ----------

  /** Past the points where a late cancellation would still be noticed. */
  predicate Exposed(pc: Pc) {
    || (pc.Working? && (pc.work.Poll? || pc.work.Search? || pc.work.Hide?))
    || (pc.Viewing? && (pc.view.Flag? || pc.view.Gate? || pc.view.Running?))
  }

  predicate Polled(pc: Pc) {
    || (pc.Working? && (pc.work.Search? || pc.work.Hide?))
    || (pc.Viewing? && (pc.view.Gate? || pc.view.Running?))
  }

  function ConnOf(t: Tid, pc: Pc): Conn
    requires pc.Working? || pc.Viewing?
  {
    if pc.Working? then ReaderConn(t, pc.e) else ViewConn(pc.v)
  }

  /** A request in its search publishes its connection, and a cancel that found it active has hit it. */
  ghost predicate Struck(g: Shared, t: Tid, pc: Pc) {
    && (Exposed(pc) ==> pc.c in g.controls && g.controls[pc.c].handle == Some(ConnOf(t, pc)))
    && (Polled(pc) && Returned(pc.c, WasActive) in g.log ==> ConnOf(t, pc) in g.hit)
  }

  ghost predicate StruckInv(s: State) {
    forall t: Tid :: Struck(s.g, t, PcOf(s, t))
  }

  /** The connections that thread t gives up by a step from pc. */
  predicate OwnConn(conn: Conn, t: Tid, pc: Pc) {
    match conn
    case ReaderConn(w, _) => w == t
    case ViewConn(v) => HoldsView(pc) && pc.v == v
  }

  /** Interrupts pending on other connections stay, and a cancel answered "active" has hit a published one. */
  ghost predicate Strikes(g: Shared, t: Tid, pc: Pc, g': Shared) {
    && (forall conn <- g.hit :: conn in g'.hit || OwnConn(conn, t, pc))
    && (forall c :: Returned(c, WasActive) in g'.log && Returned(c, WasActive) !in g.log && c in g.controls ==>
          (g.controls[c].handle.Some? ==> g.controls[c].handle.value in g'.hit))
  }

  lemma CancelStrikes(g: Shared, t: Tid, c: CtlId, why: Reason, at: CancelAt, back: Return, g': Shared, pc': Pc)
    requires c in g.controls && CancelStep(g, t, c, why, at, back, g', pc')
    ensures Strikes(g, t, Cancelling(c, why, at, back), g')
  {
  }

  lemma ViewStrikes(g: Shared, t: Tid, c: CtlId, v: nat, at: ViewAt, g': Shared, pc': Pc)
    requires c in g.controls && ViewStep(g, t, c, v, at, g', pc')
    ensures Strikes(g, t, Viewing(c, v, at), g')
  {
  }

  lemma WorkStrikes(g: Shared, t: Tid, c: CtlId, e: nat, at: WorkAt, g': Shared, pc': Pc)
    requires c in g.controls && WorkStep(g, t, c, e, at, g', pc')
    ensures Strikes(g, t, Working(c, e, at), g')
  {
  }

  lemma SubmitStrikes(cfg: Config, g: Shared, t: Tid, c: CtlId, at: SubmitAt, g': Shared, pc': Pc)
    requires c in g.controls && SubmitStep(cfg, g, c, at, g', pc')
    ensures Strikes(g, t, Submitting(c, at), g')
  {
  }

  lemma StepStrikes(cfg: Config, g: Shared, t: Tid, pc: Pc, g': Shared, pc': Pc)
    requires LocalStep(cfg, g, t, pc, g', pc')
    ensures Strikes(g, t, pc, g')
  {
    hide SubmitStep, CancelStep, ViewStep, WorkStep, Strikes;
    match pc
    case Submitting(c, at) => SubmitStrikes(cfg, g, t, c, at, g', pc');
    case Cancelling(c, why, at, back) => CancelStrikes(g, t, c, why, at, back, g', pc');
    case Viewing(c, v, at) => ViewStrikes(g, t, c, v, at, g', pc');
    case Working(c, e, at) => WorkStrikes(g, t, c, e, at, g', pc');
    case _ => QuietStrikes(g, t, pc, g');
  }

  lemma QuietStrikes(g: Shared, t: Tid, pc: Pc, g': Shared)
    requires g'.log == g.log && g'.hit == g.hit
    ensures Strikes(g, t, pc, g')
  {
  }

  /** What a thread in its search has to itself: the handle it published, and its connection. */
  lemma OwnHandle(g: Shared, g': Shared, u: Tid, pcu: Pc)
    requires LocalInv(g, u, pcu) && RelyControls(g, g', u) && Exposed(pcu)
    requires ControlOk(g.controls[pcu.c])
    ensures pcu.c in g'.controls && g'.controls[pcu.c].handle == g.controls[pcu.c].handle
  {
    assert EvolvesBeside(g.controls[pcu.c], g'.controls[pcu.c], u);
  }

  lemma ForeignConn(g: Shared, t: Tid, pc: Pc, u: Tid, pcu: Pc)
    requires LocalInv(g, t, pc) && LocalInv(g, u, pcu) && t != u && Exposed(pcu)
    ensures !OwnConn(ConnOf(u, pcu), t, pc)
  {
  }

  lemma OthersKeepStruck(g: Shared, t: Tid, pc: Pc, g': Shared, u: Tid, pcu: Pc)
    requires LocalInv(g, t, pc) && LocalInv(g, u, pcu) && t != u && RelyControls(g, g', u) && Strikes(g, t, pc, g')
    requires forall c <- g.controls :: ControlOk(g.controls[c])
    requires Struck(g, u, pcu)
    ensures Struck(g', u, pcu)
  {
    if Exposed(pcu) {
      assert pcu.c in g.controls && ControlOk(g.controls[pcu.c]);
      OwnHandle(g, g', u, pcu);
      ForeignConn(g, t, pc, u, pcu);
      hide LocalInv, RelyControls, OwnConn, ControlOk;
      assert Polled(pcu) ==> Exposed(pcu);
    }
  }

  lemma ViewOwnStruck(g: Shared, t: Tid, c: CtlId, v: nat, at: ViewAt, g': Shared, pc': Pc)
    requires c in g.controls && ViewInv(g.controls[c], t, v, at) && ViewStep(g, t, c, v, at, g', pc')
    requires Struck(g, t, Viewing(c, v, at)) && (Returned(c, WasActive) in g.log ==> g.controls[c].cancelled)
    ensures Struck(g', t, pc')
  {
  }

  lemma WorkOwnStruck(g: Shared, t: Tid, c: CtlId, e: nat, at: WorkAt, g': Shared, pc': Pc)
    requires c in g.controls && WorkStep(g, t, c, e, at, g', pc')
    requires Struck(g, t, Working(c, e, at)) && (Returned(c, WasActive) in g.log ==> g.controls[c].cancelled)
    ensures Struck(g', t, pc')
  {
  }

  lemma OtherwiseNotExposed(cfg: Config, g: Shared, t: Tid, pc: Pc, g': Shared, pc': Pc)
    requires LocalStep(cfg, g, t, pc, g', pc') && !pc.Viewing? && !pc.Working?
    ensures !Exposed(pc') && !Polled(pc')
  {
  }

  lemma OwnStepStruck(cfg: Config, g: Shared, t: Tid, pc: Pc, g': Shared, pc': Pc)
    requires LocalStep(cfg, g, t, pc, g', pc') && Struck(g, t, pc)
    requires HasControl(pc) ==> pc.c in g.controls && PcInv(g.controls[pc.c], t, pc)
    requires forall c :: Returned(c, WasActive) in g.log ==> c in g.controls && g.controls[c].cancelled
    ensures Struck(g', t, pc')
  {
    hide Struck, ViewStep, WorkStep, SubmitStep, CancelStep, RegisterStep, ViewInv, WorkInv, Exposed, Polled;
    match pc
    case Viewing(c, v, at) => ViewOwnStruck(g, t, c, v, at, g', pc');
    case Working(c, e, at) => WorkOwnStruck(g, t, c, e, at, g', pc');
    case _ =>
      OtherwiseNotExposed(cfg, g, t, pc, g', pc');
      NotExposedIsStruck(g', t, pc');
  }

  lemma NotExposedIsStruck(g: Shared, t: Tid, pc: Pc)
    requires !Exposed(pc) && !Polled(pc)
    ensures Struck(g, t, pc)
  {
  }

  lemma AckedIsCancelled(cfg: Config, g: Shared)
    requires SharedInv(cfg, g)
    ensures forall c <- g.controls :: ControlOk(g.controls[c])
    ensures forall c :: Returned(c, WasActive) in g.log ==> c in g.controls && g.controls[c].cancelled
  {
    assert forall event <- g.log :: EventOk(g, event);
  }

  lemma ThreadKeepsStruck(cfg: Config, s: State, t: Tid, s': State)
    requires Inv(cfg, s) && StruckInv(s) && ThreadStep(cfg, s, t, s')
    ensures StruckInv(s')
  {
    hide SharedInv, LocalInv, LocalStep, Struck, Strikes, RelyControls, PcInv;
    var pc, pc' := PcOf(s, t), PcOf(s', t);
    assert LocalInv(s.g, t, pc);
    AckedIsCancelled(cfg, s.g);
    StepKeeps(cfg, s.g, t, pc, s'.g, pc');
    StepStrikes(cfg, s.g, t, pc, s'.g, pc');
    forall u: Tid
      ensures Struck(s'.g, u, PcOf(s', u))
    {
      assert Struck(s.g, u, PcOf(s, u)) && LocalInv(s.g, u, PcOf(s, u));
      if u == t {
        OwnPcInv(s.g, t, pc);
        OwnStepStruck(cfg, s.g, t, pc, s'.g, pc');
      } else {
        assert Rely(s.g, s'.g, u);
        OthersKeepStruck(s.g, t, pc, s'.g, u, PcOf(s, u));
      }
    }
  }

  lemma OwnPcInv(g: Shared, t: Tid, pc: Pc)
    requires LocalInv(g, t, pc)
    ensures HasControl(pc) ==> pc.c in g.controls && PcInv(g.controls[pc.c], t, pc)
  {
  }

  lemma NextKeepsStruck(cfg: Config, s: State, s': State)
    requires Inv(cfg, s) && StruckInv(s) && Next(cfg, s, s')
    ensures StruckInv(s')
  {
    hide Inv, ThreadStep;
    if t: Tid :| ThreadStep(cfg, s, t, s') {
      ThreadKeepsStruck(cfg, s, t, s');
    } else {
      var c :| ClockStep(s, c, s');
      forall t: Tid
        ensures Struck(s'.g, t, PcOf(s', t))
      {
        assert Struck(s.g, t, PcOf(s, t)) && PcOf(s', t) == PcOf(s, t);
      }
    }
  }

  lemma {:induction false} RunStruck(cfg: Config, run: seq<State>, i: nat)
    requires Run(cfg, run) && i < |run|
    ensures StruckInv(run[i])
  {
    hide Inv, StruckInv, Next;
    if i == 0 {
      InitStruck(cfg, run[0]);
    } else {
      RunStruck(cfg, run, i - 1);
      RunInv(cfg, run, i - 1);
      NextKeepsStruck(cfg, run[i - 1], run[i]);
    }
  }

  lemma InitStruck(cfg: Config, s: State)
    requires Init(cfg, s)
    ensures StruckInv(s)
  {
  }

  /**
   No acknowledged cancel is lost: when a cancel of request c was told "active", c is either not yet
   in its search, with the flag still to be looked at, or its search runs on a connection with an
   interrupt pending, or it is past its search. Its handle is published all through the search.
   */
  lemma NoCancelIsLost(cfg: Config, run: seq<State>, i: nat, t: Tid)
    requires Run(cfg, run) && i < |run| && Polled(PcOf(run[i], t))
    requires Returned(PcOf(run[i], t).c, WasActive) in run[i].g.log
    ensures ConnOf(t, PcOf(run[i], t)) in run[i].g.hit
    ensures PcOf(run[i], t).c in run[i].g.controls
    ensures run[i].g.controls[PcOf(run[i], t).c].handle == Some(ConnOf(t, PcOf(run[i], t)))
  {
    RunStruck(cfg, run, i);
    assert Struck(run[i].g, t, PcOf(run[i], t));
  }

  // ---------- Admission, and jobs that come too late ----------

  /**
   A call is admitted exactly when no other call of that id is registered and the registry has room;
   it is then registered, and nobody else loses or gains an entry. A refused one leaves no trace.
   */
  lemma AdmissionExactly(cfg: Config, s: State, t: Tid, s': State)
    requires Inv(cfg, s) && ThreadStep(cfg, s, t, s') && PcOf(s, t).Register?
    ensures var id := PcOf(s, t).id;
            if id !in s.g.registry && |s.g.registry| < cfg.readers + cfg.capacity then
              HasControl(PcOf(s', t)) && id in s'.g.registry && s'.g.registry[id] == PcOf(s', t).c
              && s'.g.registry == s.g.registry[id := PcOf(s', t).c]
              && s'.g.controls[PcOf(s', t).c].phase == Queued && s'.g.controls[PcOf(s', t).c].reason == NoReason
            else PcOf(s', t) == Idle && s'.g == s.g
  {
  }

  /** The worker has the job in hand, or cancels it for its deadline. */
  predicate Abandoning(pc: Pc, c: CtlId, e: nat) {
    pc == Working(c, e, Took) || (pc.Cancelling? && pc.c == c && pc.why == Deadline && pc.back == ToWorker(e))
  }

  lemma CancelGoesOn(g: Shared, t: Tid, c: CtlId, why: Reason, at: CancelAt, back: Return, g': Shared, pc': Pc)
    requires c in g.controls && CancelStep(g, t, c, why, at, back, g', pc')
    ensures pc' == Resume(back, c) || (pc'.Cancelling? && pc'.c == c && pc'.why == why && pc'.back == back)
  {
  }

  /**
   A job that is past its deadline when a worker takes it is not served: until the worker is ready
   for another job, it does nothing but cancel this one for its deadline.
   */
  lemma {:induction false} ExpiredJobsAreCancelled(cfg: Config, run: seq<State>, i: nat, j: nat, w: Tid, c: CtlId, e: nat)
    requires Run(cfg, run) && i <= j < |run|
    requires PcOf(run[i], w) == Working(c, e, Took) && c in run[i].g.controls && run[i].g.controls[c].expired
    requires forall k :: i < k <= j ==> PcOf(run[k], w) != Ready(e)
    ensures Abandoning(PcOf(run[j], w), c, e) && c in run[j].g.controls && run[j].g.controls[c].expired
    decreases j
  {
    hide Inv;
    if i < j {
      ExpiredJobsAreCancelled(cfg, run, i, j - 1, w, c, e);
      FirstReasonStands(cfg, run, i, j, c);
      AbandoningStep(cfg, run[j - 1], run[j], w, c, e);
    }
  }

  lemma AbandoningStep(cfg: Config, s: State, s': State, w: Tid, c: CtlId, e: nat)
    requires Next(cfg, s, s') && Abandoning(PcOf(s, w), c, e) && c in s.g.controls && s.g.controls[c].expired
    requires PcOf(s', w) != Ready(e)
    ensures Abandoning(PcOf(s', w), c, e)
  {
    hide CancelStep;
    if t: Tid :| ThreadStep(cfg, s, t, s') {
      var pc := PcOf(s, t);
      if t == w && pc.Cancelling? {
        CancelGoesOn(s.g, t, c, pc.why, pc.step, pc.back, s'.g, PcOf(s', t));
      }
    }
  }

  /** A search is queued exactly when the queue has room for it; otherwise its call rejects it. */
  lemma QueueingExactly(cfg: Config, s: State, t: Tid, s': State)
    requires ThreadStep(cfg, s, t, s') && PcOf(s, t).Submitting? && PcOf(s, t).at == Enqueue
    ensures var c := PcOf(s, t).c;
            if |s.g.queue| < cfg.capacity then s'.g == s.g.(queue := s.g.queue + [c]) && PcOf(s', t) == Submitting(c, Await)
            else s'.g == s.g && PcOf(s', t) == Submitting(c, Reject)
  {
  }

  lemma QueueStep(cfg: Config, s: State, s': State)
    requires Next(cfg, s, s')
    ensures || s'.g.queue == s.g.queue
            || (exists c :: s'.g.queue == s.g.queue + [c])
            || (s.g.queue != [] && s'.g.queue == s.g.queue[1..]
                && exists t: Tid :: PcOf(s, t).Ready? && PcOf(s', t) == Working(s.g.queue[0], PcOf(s, t).e, Took))
  {
    if t: Tid :| ThreadStep(cfg, s, t, s') {
      QueueMoves(cfg, s.g, t, PcOf(s, t), s'.g, PcOf(s', t));
    }
  }

  lemma QueueMoves(cfg: Config, g: Shared, t: Tid, pc: Pc, g': Shared, pc': Pc)
    requires LocalStep(cfg, g, t, pc, g', pc')
    ensures || g'.queue == g.queue
            || (pc.Submitting? && g'.queue == g.queue + [pc.c])
            || (pc.Ready? && g.queue != [] && g'.queue == g.queue[1..] && pc' == Working(g.queue[0], pc.e, Took))
  {
    match pc
    case Cancelling(_, _, _, _) =>
      hide RegisterStep, SubmitStep, ViewStep, WorkStep;
    case Viewing(_, _, _) =>
      hide RegisterStep, SubmitStep, CancelStep, WorkStep;
    case Working(_, _, _) =>
      hide RegisterStep, SubmitStep, CancelStep, ViewStep;
    case _ =>
      hide CancelStep, ViewStep, WorkStep;
  }

  /**
   The queue is first in, first out: between two states of a run some searches were appended and
   some taken from the front; each was taken by a worker that was ready for it.
   */
  lemma {:induction false} QueueIsFifo(cfg: Config, run: seq<State>, i: nat, j: nat) returns (more: seq<CtlId>, taken: nat)
    requires Run(cfg, run) && i <= j < |run|
    ensures taken <= |run[i].g.queue + more| && run[j].g.queue == (run[i].g.queue + more)[taken..]
    decreases j
  {
    hide Next;
    if i == j {
      more, taken := [], 0;
    } else {
      more, taken := QueueIsFifo(cfg, run, i, j - 1);
      QueueStep(cfg, run[j - 1], run[j]);
      var before, after := run[j - 1].g.queue, run[j].g.queue;
      if before != [] && after == before[1..] {
        taken := taken + 1;
      } else if after != before {
        var c :| after == before + [c];
        assert run[i].g.queue + (more + [c]) == run[i].g.queue + more + [c];
        more := more + [c];
      }
    }
  }

  // ---------- Deadlines, and searches that do not begin ----------

  lemma CancelReasons(g: Shared, t: Tid, d: CtlId, why: Reason, at: CancelAt, back: Return, g': Shared, pc': Pc, c: CtlId)
    requires d in g.controls && CancelStep(g, t, d, why, at, back, g', pc') && c in g.controls && c in g'.controls
    ensures g'.controls[c].reason == g.controls[c].reason || (d == c && g'.controls[c].reason == why)
  {
  }

  lemma ViewReasons(g: Shared, t: Tid, d: CtlId, v: nat, at: ViewAt, g': Shared, pc': Pc, c: CtlId)
    requires d in g.controls && ViewStep(g, t, d, v, at, g', pc') && c in g.controls && c in g'.controls
    ensures g'.controls[c].reason == g.controls[c].reason
  {
    hide Registered, TerminalOf, Owner;
    assert c != d ==> g'.controls[c] == g.controls[c];
  }

  lemma WorkReasons(g: Shared, t: Tid, d: CtlId, e: nat, at: WorkAt, g': Shared, pc': Pc, c: CtlId)
    requires d in g.controls && WorkStep(g, t, d, e, at, g', pc') && c in g.controls && c in g'.controls
    ensures g'.controls[c].reason == g.controls[c].reason
  {
  }

  lemma WhoSetsReasons(cfg: Config, g: Shared, t: Tid, pc: Pc, g': Shared, pc': Pc, c: CtlId)
    requires LocalStep(cfg, g, t, pc, g', pc') && c in g.controls && c in g'.controls
    ensures g'.controls[c].reason == g.controls[c].reason || (pc.Cancelling? && pc.c == c && g'.controls[c].reason == pc.why)
  {
    hide CancelStep, ViewStep, WorkStep;
    match pc
    case Cancelling(d, why, at, back) => CancelReasons(g, t, d, why, at, back, g', pc', c);
    case Viewing(d, v, at) => ViewReasons(g, t, d, v, at, g', pc', c);
    case Working(d, e, at) => WorkReasons(g, t, d, e, at, g', pc', c);
    case _ =>
  }

  /**
   Only a cancel of the request sets its reason: the one that a client gave, or the deadline once that
   has passed, when it is a submitting call or a worker that cancels.
   */
  lemma ReasonsComeFromCancels(cfg: Config, s: State, t: Tid, s': State, c: CtlId)
    requires Inv(cfg, s) && ThreadStep(cfg, s, t, s') && c in s.g.controls && c in s'.g.controls
    requires s'.g.controls[c].reason != s.g.controls[c].reason
    ensures var pc := PcOf(s, t);
            && pc.Cancelling? && pc.c == c && s'.g.controls[c].reason == pc.why
            && (pc.back != ToClient ==> pc.why == Deadline && s.g.controls[c].expired)
  {
    assert LocalInv(s.g, t, PcOf(s, t));
    hide LocalStep, SharedInv, HolderInv, OwnerInv;
    WhoSetsReasons(cfg, s.g, t, PcOf(s, t), s'.g, PcOf(s', t), c);
  }

  lemma EntersOnlyOpen(cfg: Config, g: Shared, t: Tid, pc: Pc, g': Shared, pc': Pc, c: CtlId)
    requires LocalStep(cfg, g, t, pc, g', pc') && c in g.controls && g.controls[c].isView
    requires HasControl(pc) ==> pc.c in g.controls && PcInv(g.controls[pc.c], t, pc) && ControlOk(g.controls[pc.c])
    requires g.controls[c].cancelled || g.controls[c].expired
    ensures Entered(c) in g'.log ==> Entered(c) in g.log
  {
    hide RegisterStep, SubmitStep, CancelStep, ViewStep, WorkStep;
    match pc
    case Submitting(d, at) => SubmitEnters(cfg, g, d, at, g', pc', c);
    case Cancelling(d, why, at, back) => CancelEnters(g, t, d, why, at, back, g', pc', c);
    case Viewing(d, v, at) => ViewEnters(g, t, d, v, at, g', pc', c);
    case Working(d, e, at) => WorkEnters(g, t, d, e, at, g', pc', c);
    case Register(id, target) => RegisterEnters(cfg, g, t, id, target, g', pc');
    case _ =>
  }

  lemma RegisterEnters(cfg: Config, g: Shared, t: Tid, id: string, target: Option<nat>, g': Shared, pc': Pc)
    requires RegisterStep(cfg, g, t, id, target, g', pc')
    ensures g'.log == g.log
  {
  }

  lemma SubmitEnters(cfg: Config, g: Shared, d: CtlId, at: SubmitAt, g': Shared, pc': Pc, c: CtlId)
    requires d in g.controls && SubmitStep(cfg, g, d, at, g', pc')
    ensures Entered(c) in g'.log ==> Entered(c) in g.log
  {
  }

  lemma CancelEnters(g: Shared, t: Tid, d: CtlId, why: Reason, at: CancelAt, back: Return, g': Shared, pc': Pc, c: CtlId)
    requires d in g.controls && CancelStep(g, t, d, why, at, back, g', pc')
    ensures Entered(c) in g'.log ==> Entered(c) in g.log
  {
  }

  lemma ViewEnters(g: Shared, t: Tid, d: CtlId, v: nat, at: ViewAt, g': Shared, pc': Pc, c: CtlId)
    requires d in g.controls && ViewStep(g, t, d, v, at, g', pc')
    requires c in g.controls && (g.controls[c].cancelled || g.controls[c].expired)
    ensures Entered(c) in g'.log ==> Entered(c) in g.log
  {
  }

  lemma WorkEnters(g: Shared, t: Tid, d: CtlId, e: nat, at: WorkAt, g': Shared, pc': Pc, c: CtlId)
    requires d in g.controls && WorkStep(g, t, d, e, at, g', pc') && WorkInv(g.controls[d], t, at) && ControlOk(g.controls[d])
    requires c in g.controls && g.controls[c].isView
    ensures Entered(c) in g'.log ==> Entered(c) in g.log
  {
  }

  lemma NextEnters(cfg: Config, s: State, s': State, c: CtlId)
    requires Inv(cfg, s) && Next(cfg, s, s') && c in s.g.controls && s.g.controls[c].isView
    requires s.g.controls[c].cancelled || s.g.controls[c].expired
    ensures Entered(c) in s'.g.log ==> Entered(c) in s.g.log
  {
    if t: Tid :| ThreadStep(cfg, s, t, s') {
      assert LocalInv(s.g, t, PcOf(s, t));
      AckedIsCancelled(cfg, s.g);
      hide LocalStep, SharedInv, HolderInv, OwnerInv, PcInv, ControlOk;
      EntersOnlyOpen(cfg, s.g, t, PcOf(s, t), s'.g, PcOf(s', t), c);
    }
  }

  /** A view query that is cancelled, or past its deadline, before its search does not begin it any more. */
  lemma {:induction false} CancelledViewsDoNotBegin(cfg: Config, run: seq<State>, i: nat, j: nat, c: CtlId)
    requires Run(cfg, run) && i <= j < |run| && c in run[i].g.controls && run[i].g.controls[c].isView
    requires run[i].g.controls[c].cancelled || run[i].g.controls[c].expired
    requires Entered(c) !in run[i].g.log
    ensures Entered(c) !in run[j].g.log
    decreases j
  {
    hide Inv, Next;
    if i < j {
      CancelledViewsDoNotBegin(cfg, run, i, j - 1, c);
      FirstReasonStands(cfg, run, i, j - 1, c);
      RunInv(cfg, run, j - 1);
      NextEnters(cfg, run[j - 1], run[j], c);
    }
  }

  /** A worker gives up its connection, or ends, only behind a request that was cancelled. */
  lemma RetirementsFollowCancels(cfg: Config, s: State, t: Tid, s': State)
    requires Inv(cfg, s) && ThreadStep(cfg, s, t, s') && PcOf(s, t).Working?
    requires PcOf(s', t) == Dead || (PcOf(s', t).Ready? && PcOf(s', t).e != PcOf(s, t).e)
    ensures PcOf(s, t).c in s.g.controls && s.g.controls[PcOf(s, t).c].cancelled && s.g.controls[PcOf(s, t).c].reason != NoReason
  {
    assert WorkStep(s.g, t, PcOf(s, t).c, PcOf(s, t).e, PcOf(s, t).work, s'.g, PcOf(s', t));
    AckedIsCancelled(cfg, s.g);
    hide SharedInv, LocalInv;
  }
}
