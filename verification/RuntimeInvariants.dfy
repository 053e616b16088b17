/**
 The inductive invariant of the request-control protocol, by rely and guarantee:
 `SharedInv` speaks of the shared state, `LocalInv` of one thread's position, and
 `Rely` bounds what all other threads may do between two steps of that thread.
 */
module RuntimeInvariants {
  import opened Wrappers
  import opened RuntimeProtocol

  // ---------- Shared state ----------

  predicate ControlOk(k: Control) {
    && (k.cancelled ==> k.reason != NoReason)
    && (k.stamped ==> k.cancelled)
    && (k.phase == Queued <==> k.claim == Unclaimed)
    && (k.claim.ByCanceller? ==> k.phase == Terminal && k.reason != NoReason)
    && (k.claim.ByWorker? ==> !k.isView)
    && (k.claim.ByView? ==> k.isView && k.claim.tid == k.creator)
    && (k.completion <==> k.sent == None)
    && (k.sent.Some? ==> k.phase == Terminal && SentOk(k, k.sent.value))
  }

  /** What a decided request may be answered with. */
  predicate SentOk(k: Control, out: Outcome) {
    match k.claim
    case ByCanceller(_) => SpeaksFor(k.reason, out)
    case ByWorker(_) => out == Response(false) || SpeaksFor(k.reason, out)
    case _ => false
  }

  /** The error that tells of a cancellation for this reason. */
  predicate SpeaksFor(reason: Reason, out: Outcome) {
    || (out == Cancelled && (reason == Caller || reason == Disconnect))
    || (out == DeadlineExceeded && reason == Deadline)
  }

  /** What the call that made a request may return. */
  predicate ToldOk(k: Control, out: Outcome) {
    if k.isView then out == Response(false) || SpeaksFor(k.reason, out) || (out == DeadlineExceeded && k.expired)
    else k.sent == Some(out) || (out == DeadlineExceeded && k.expired && k.reason != NoReason)
  }

  predicate EventOk(g: Shared, event: Event) {
    match event
    case Interrupted(_, cause, owner) => owner == Some(cause) && cause in g.controls && g.controls[cause].cancelled
    case Entered(c) => c in g.controls && (g.controls[c].claim.ByWorker? || g.controls[c].claim.ByView?)
    case Sent(c, out) => c in g.controls && g.controls[c].sent == Some(out)
    case Returned(c, answer) => c in g.controls && g.controls[c].cancelled && g.controls[c].stamped && ReturnOk(g.controls[c], answer)
    case Told(c, out) => c in g.controls && ToldOk(g.controls[c], out)
    case Fallback(_) => false
  }

  /** What each answer of cancel_exact says of the request. */
  predicate ReturnOk(k: Control, answer: CancelOutcome) {
    match answer
    case WasQueued => k.claim.ByCanceller? && k.sent.Some?
    case WasActive => k.claim.ByWorker? || k.claim.ByView?
    case AlreadyTerminal => k.phase == Terminal
  }

  ghost predicate LogInv(g: Shared) {
    && (forall i :: 0 <= i < |g.log| ==> EventOk(g, g.log[i]))
    && (forall i, j :: 0 <= i < j < |g.log| && g.log[i].Sent? && g.log[j].Sent? ==> g.log[i].c != g.log[j].c)
  }

  ghost predicate HandleInv(g: Shared) {
    && (forall c <- g.controls :: g.controls[c].handle.Some? ==>
          Owner(g, g.controls[c].handle.value) == Some(c))
    && (forall conn <- g.owner :: g.owner[conn] in g.controls)
    && (forall conn <- g.hit :: conn in g.owner && g.owner[conn] in g.controls && g.controls[g.owner[conn]].cancelled)
  }

  ghost predicate TableInv(cfg: Config, g: Shared) {
    && (forall id <- g.registry :: g.registry[id] in g.controls && g.controls[g.registry[id]].requestId == id)
    && |g.registry| <= cfg.readers + cfg.capacity
    && (forall c <- g.queue :: c in g.controls && !g.controls[c].isView)
    && |g.queue| <= cfg.capacity
  }

  ghost predicate SharedInv(cfg: Config, g: Shared) {
    && (forall c <- g.controls :: ControlOk(g.controls[c]))
    && HandleInv(g)
    && TableInv(cfg, g)
    && LogInv(g)
  }

  // ---------- One thread ----------

  predicate HasControl(pc: Pc) {
    pc.Submitting? || pc.Cancelling? || pc.Viewing? || pc.Working?
  }

  /** A worker between winning the request and clearing its handle. */
  predicate Serving(pc: Pc) {
    pc.Working? && (pc.work.Expose? || pc.work.Poll? || pc.work.Search? || pc.work.Hide?)
  }

  /** A view query between taking and returning the connection mutex. */
  predicate HoldsView(pc: Pc) {
    pc.Viewing? && !(pc.view.Lock? || pc.view.Finish? || pc.view.Remove? || pc.view.Answer? || pc.view.Explain?)
  }

  predicate Deciding(at: CancelAt) {
    at.CasReason? || at.StoreFlag? || at.Stamp? || at.LoadPhase? || at.CasPhase?
  }

  /** Thread t, at pc, is bound to take control c out of the registry, or to hand it on. */
  predicate Holds(k: Control, t: Tid, pc: Pc, c: CtlId) {
    match k.claim
    case Unclaimed => k.creator == t ==>
      (match pc
       case Submitting(c', at) => c' == c && !at.Grace?
       case Cancelling(c', _, at, back) => c' == c && back == ToGrace && Deciding(at)
       case Viewing(c', _, at) => c' == c && (at.Lock? || at.Publish? || at.Claiming? || at.Finish?)
       case _ => false)
    case ByCanceller(t') => t' == t ==>
      pc.Cancelling? && pc.c == c && (pc.step.LoadReason? || pc.step.SendResult? || pc.step.RemoveEntry?)
    case ByWorker(t') => t' == t ==>
      pc.Working? && pc.c == c && !pc.work.Took? && !pc.work.Contend? && !pc.work.Retire?
    case ByView(t') => t' == t ==>
      pc.Viewing? && pc.c == c
      && !(pc.view.Lock? || pc.view.Publish? || pc.view.Claiming? || pc.view.Answer? || pc.view.Explain?)
  }

  ghost predicate HolderInv(g: Shared, t: Tid, pc: Pc) {
    forall c <- g.controls :: Registered(g, c) ==> Holds(g.controls[c], t, pc, c)
  }

  /** Only the connection in use is owned: a reader's by its worker, a view's by its lock holder. */
  ghost predicate OwnerInv(g: Shared, t: Tid, pc: Pc) {
    && (forall conn <- g.owner :: conn.ReaderConn? && conn.worker == t ==>
          Serving(pc) && pc.e == conn.epoch && g.owner[conn] == pc.c)
    && (Serving(pc) ==> Owner(g, ReaderConn(t, pc.e)) == Some(pc.c))
    && (HoldsView(pc) ==> Owner(g, ViewConn(pc.v)) == Some(pc.c))
  }

  predicate SubmitInv(k: Control, t: Tid, at: SubmitAt) {
    k.creator == t && !k.isView && (at.Grace? ==> k.claim != Unclaimed && k.expired && k.reason != NoReason)
  }

  predicate CancelInv(k: Control, t: Tid, why: Reason, at: CancelAt, back: Return) {
    && why != NoReason
    && (back != ToClient ==> why == Deadline && k.expired)
    && (at.CasReason? || k.reason != NoReason)
    && (at.CasReason? || at.StoreFlag? || k.cancelled)
    && (at.CasReason? || at.StoreFlag? || at.Stamp? || k.stamped)
    && (at.Interrupt? ==> k.claim.ByWorker? || k.claim.ByView?)
    && (at.LoadReason? || at.SendResult? ==> k.claim == ByCanceller(t) && k.completion)
    && (at.SendResult? ==> SpeaksFor(k.reason, at.out))
    && (at.RemoveEntry? ==> k.claim == ByCanceller(t) && k.sent.Some?)
    && (back == ToGrace ==> k.creator == t && !k.isView && k.expired)
  }

  /** Why an interrupted view query may answer with an error. */
  predicate Explained(k: Control, r: ViewResult) {
    r == ViewInterrupted ==> k.reason != NoReason || k.expired
  }

  predicate ViewInv(k: Control, t: Tid, v: nat, at: ViewAt) {
    && k.isView && k.creator == t
    && (k.handleLock == Some(t) <==> at.Claiming? || at.Flag?)
    && match at
       case Lock => !k.claim.ByView? && k.handle == None
       case Publish => !k.claim.ByView? && k.handle == None
       case Claiming => !k.claim.ByView? && k.handle == Some(ViewConn(v))
       case Flag => k.claim == ByView(t)
       case Gate => k.claim == ByView(t)
       case Running => k.claim == ByView(t)
       case Clear(r) => Explained(k, r) && k.claim != Unclaimed
       case Unlock(r) => Explained(k, r) && k.handle == None && k.claim != Unclaimed
       case Finish(r) => Explained(k, r) && k.handle == None
       case Remove(r) => Explained(k, r) && k.claim != Unclaimed
       case Answer(r) => Explained(k, r) && k.claim != Unclaimed
       case Explain => (k.reason != NoReason || k.expired) && k.claim != Unclaimed
  }

  predicate WorkInv(k: Control, t: Tid, at: WorkAt) {
    match at
    case Took => !k.isView
    case Contend => !k.isView
    case Expose => k.claim == ByWorker(t) && k.phase == Active
    case Poll => k.claim == ByWorker(t) && k.phase == Active
    case Search => k.claim == ByWorker(t) && k.phase == Active
    case Hide(i) => k.claim == ByWorker(t) && k.phase == Active && (i ==> k.reason != NoReason)
    case ReadReason(i) => k.claim == ByWorker(t) && k.phase == Active && (i ==> k.reason != NoReason)
    case ReadTerminal => k.claim == ByWorker(t) && k.phase == Active && k.reason != NoReason
    case Close(out) => k.claim == ByWorker(t) && k.phase == Active && SentOk(k, out)
    case Send(out) => k.claim == ByWorker(t) && k.phase == Terminal && k.completion && SentOk(k, out)
    case Drop => k.claim == ByWorker(t) && k.sent.Some?
    case Retire => true
  }

  predicate PcInv(k: Control, t: Tid, pc: Pc) {
    match pc
    case Submitting(_, at) => SubmitInv(k, t, at)
    case Cancelling(_, why, at, back) => CancelInv(k, t, why, at, back)
    case Viewing(_, v, at) => ViewInv(k, t, v, at)
    case Working(_, _, at) => WorkInv(k, t, at)
    case _ => true
  }

  ghost predicate LocalInv(g: Shared, t: Tid, pc: Pc) {
    && (HasControl(pc) ==> pc.c in g.controls && PcInv(g.controls[pc.c], t, pc))
    && HolderInv(g, t, pc)
    && OwnerInv(g, t, pc)
  }

  ghost predicate Inv(cfg: Config, s: State) {
    SharedInv(cfg, s.g) && forall t: Tid :: LocalInv(s.g, t, PcOf(s, t))
  }

  // ---------- Steps only move forward ----------

  /** How one control block may change under any step of anybody. */
  predicate Evolves(k: Control, k': Control) {
    && k'.requestId == k.requestId && k'.creator == k.creator && k'.isView == k.isView
    && (k.reason != NoReason ==> k'.reason == k.reason)
    && (k.cancelled ==> k'.cancelled)
    && (k.stamped ==> k'.stamped)
    && (k.expired ==> k'.expired)
    && (k.phase == Terminal ==> k'.phase == Terminal)
    && (k.claim != Unclaimed ==> k'.claim == k.claim)
    && (k.sent.Some? ==> k'.sent == k.sent)
  }

  /** How one control block may change under a step of a thread other than t. */
  predicate EvolvesBeside(k: Control, k': Control, t: Tid) {
    && Evolves(k, k')
    && (k'.claim != k.claim ==> !(k'.claim == ByCanceller(t) || k'.claim == ByWorker(t) || k'.claim == ByView(t)))
    && (k.claim == ByCanceller(t) || k.claim == ByWorker(t) || k.claim == ByView(t) ==>
          k'.phase == k.phase && k'.sent == k.sent && k'.completion == k.completion)
    && (k.claim == ByWorker(t) ==> k'.handle == k.handle)
    && (k.isView && k.creator == t ==> k'.handle == k.handle && !k'.claim.ByView? == !k.claim.ByView?)
    && (k.handleLock == Some(t) <==> k'.handleLock == Some(t))
  }

  /** What thread t may count on while the others move. */
  ghost predicate Rely(g: Shared, g': Shared, t: Tid) {
    RelyControls(g, g', t) && RelyRegistry(g, g') && RelyOwners(g, g', t)
  }

  ghost predicate RelyControls(g: Shared, g': Shared, t: Tid) {
    && (forall c <- g.controls :: c in g'.controls && EvolvesBeside(g.controls[c], g'.controls[c], t))
    && (forall c <- g'.controls :: c in g.controls || (g'.controls[c].creator != t && g'.controls[c].claim == Unclaimed))
  }

  ghost predicate RelyRegistry(g: Shared, g': Shared) {
    forall c <- g.controls :: c in g'.controls && Registered(g', c) ==> Registered(g, c)
  }

  ghost predicate RelyOwners(g: Shared, g': Shared, t: Tid) {
    && (forall conn <- g.owner :: g.owner[conn] in g.controls && OwnedBy(g, conn, t) ==>
          Owner(g', conn) == Some(g.owner[conn]))
    && (forall conn <- g'.owner :: conn.ReaderConn? && conn.worker == t ==>
          Owner(g, conn) == Some(g'.owner[conn]))
  }

  predicate OwnedBy(g: Shared, conn: Conn, t: Tid)
    requires conn in g.owner && g.owner[conn] in g.controls
  {
    match conn
    case ReaderConn(w, _) => w == t
    case ViewConn(_) => g.controls[g.owner[conn]].creator == t && g.controls[g.owner[conn]].isView
  }

  lemma HolderStable(g: Shared, g': Shared, t: Tid, pc: Pc)
    requires HolderInv(g, t, pc) && RelyControls(g, g', t) && RelyRegistry(g, g')
    ensures HolderInv(g', t, pc)
  {
    forall c <- g'.controls | Registered(g', c)
      ensures Holds(g'.controls[c], t, pc, c)
    {
      if c in g.controls {
        assert Registered(g, c);
        assert EvolvesBeside(g.controls[c], g'.controls[c], t);
      }
    }
  }

  lemma OwnerStable(g: Shared, g': Shared, t: Tid, pc: Pc)
    requires OwnerInv(g, t, pc) && RelyOwners(g, g', t)
    requires HoldsView(pc) ==> pc.c in g.controls && g.controls[pc.c].isView && g.controls[pc.c].creator == t
    requires Serving(pc) ==> pc.c in g.controls
    ensures OwnerInv(g', t, pc)
  {
    if HoldsView(pc) {
      var conn := ViewConn(pc.v);
      assert conn in g.owner && g.owner[conn] == pc.c;
      assert OwnedBy(g, conn, t);
    } else if Serving(pc) {
      var conn := ReaderConn(t, pc.e);
      assert conn in g.owner && g.owner[conn] == pc.c;
      assert OwnedBy(g, conn, t);
    }
  }

  lemma PcStable(k: Control, k': Control, t: Tid, pc: Pc)
    requires PcInv(k, t, pc)
    requires EvolvesBeside(k, k', t) && ControlOk(k) && ControlOk(k')
    ensures PcInv(k', t, pc)
  {
  }

  /** A thread's assertion survives whatever the other threads may do. */
  lemma StableUnderRely(g: Shared, g': Shared, t: Tid, pc: Pc)
    requires HasControl(pc) ==> pc.c in g.controls && pc.c in g'.controls && ControlOk(g.controls[pc.c]) && ControlOk(g'.controls[pc.c])
    requires LocalInv(g, t, pc)
    requires Rely(g, g', t)
    ensures LocalInv(g', t, pc)
  {
    HolderStable(g, g', t, pc);
    OwnerStable(g, g', t, pc);
    if HasControl(pc) {
      PcStable(g.controls[pc.c], g'.controls[pc.c], t, pc);
    }
  }
}
