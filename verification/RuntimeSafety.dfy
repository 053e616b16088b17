/**
 What the request-control protocol guarantees over every run: every interleaving of
 cancellers, reader workers, submitting calls and view callers.
 */
module RuntimeSafety {
  import opened Wrappers
  import opened RuntimeProtocol
  import opened RuntimeInvariants
  import opened RuntimeSteps

  // ---------- The invariant holds along every run ----------

  lemma InitInv(cfg: Config, s: State)
    requires Init(cfg, s)
    ensures Inv(cfg, s)
  {
  }

  lemma StepKeeps(cfg: Config, g: Shared, t: Tid, pc: Pc, g': Shared, pc': Pc)
    requires SharedInv(cfg, g) && LocalInv(g, t, pc) && LocalStep(cfg, g, t, pc, g', pc')
    ensures SharedInv(cfg, g') && LocalInv(g', t, pc') && forall u: Tid :: u != t ==> Rely(g, g', u)
  {
    hide SharedInv, LocalInv, Rely, RegisterStep, SubmitStep, CancelStep, ViewStep, WorkStep;
    match pc
    case Register(_, _) => RegisterKeeps(cfg, g, t, pc, g', pc');
    case Submitting(_, _) => SubmitKeeps(cfg, g, t, pc, g', pc');
    case Cancelling(_, _, _, _) => CancelKeeps(cfg, g, t, pc, g', pc');
    case Viewing(_, _, _) => ViewKeeps(cfg, g, t, pc, g', pc');
    case Working(_, _, _) => WorkKeeps(cfg, g, t, pc, g', pc');
    case _ => IdleKeeps(cfg, g, t, pc, g', pc');
  }

  lemma Survives(cfg: Config, g: Shared, g': Shared, t: Tid, pc: Pc)
    requires SharedInv(cfg, g) && SharedInv(cfg, g') && LocalInv(g, t, pc) && Rely(g, g', t)
    ensures LocalInv(g', t, pc)
  {
    hide HolderInv, OwnerInv;
    StableUnderRely(g, g', t, pc);
  }

  lemma ThreadStepInv(cfg: Config, s: State, t: Tid, s': State)
    requires Inv(cfg, s) && ThreadStep(cfg, s, t, s')
    ensures Inv(cfg, s')
  {
    hide SharedInv, LocalInv, Rely, LocalStep;
    StepKeeps(cfg, s.g, t, PcOf(s, t), s'.g, PcOf(s', t));
    forall u: Tid
      ensures LocalInv(s'.g, u, PcOf(s', u))
    {
      if u != t {
        assert LocalInv(s.g, t, PcOf(s, t)) && LocalInv(s.g, u, PcOf(s, u));
        Survives(cfg, s.g, s'.g, u, PcOf(s, u));
      }
    }
  }

  lemma ExpiryEvolves(k: Control)
    ensures ControlOk(k) ==> ControlOk(k.(expired := true))
    ensures Evolves(k, k.(expired := true)) && forall u: Tid :: EvolvesBeside(k, k.(expired := true), u)
  {
  }

  lemma ClockStepInv(cfg: Config, s: State, c: CtlId, s': State)
    requires Inv(cfg, s) && ClockStep(s, c, s')
    ensures Inv(cfg, s')
  {
    var k := s.g.controls[c];
    ExpiryEvolves(k);
    hide SharedInv, LocalInv, Rely, ControlOk, EvolvesBeside, Evolves;
    PutKeeps(cfg, s.g, c, k.(expired := true));
    forall u: Tid
      ensures LocalInv(s'.g, u, PcOf(s', u))
    {
      assert PcOf(s', u) == PcOf(s, u);
      assert LocalInv(s.g, u, PcOf(s, u));
      SameOwnersRely(s.g, s'.g, u);
      PutRely(s.g, s'.g, c, u);
      Survives(cfg, s.g, s'.g, u, PcOf(s, u));
    }
  }

  lemma NextInv(cfg: Config, s: State, s': State)
    requires Inv(cfg, s) && Next(cfg, s, s')
    ensures Inv(cfg, s')
  {
    hide Inv, ThreadStep, ClockStep;
    if t: Tid :| ThreadStep(cfg, s, t, s') {
      ThreadStepInv(cfg, s, t, s');
    } else {
      var c :| ClockStep(s, c, s');
      ClockStepInv(cfg, s, c, s');
    }
  }

  /** The invariant holds in every state of every run. */
  lemma {:induction false} RunInv(cfg: Config, run: seq<State>, i: nat)
    requires Run(cfg, run) && i < |run|
    ensures Inv(cfg, run[i])
  {
    hide Inv;
    if i == 0 {
      InitInv(cfg, run[0]);
    } else {
      RunInv(cfg, run, i - 1);
      NextInv(cfg, run[i - 1], run[i]);
    }
  }

  // ---------- Interrupts ----------

  /**
   Whenever any interrupt is delivered in any run, the connection it reaches is at that
   moment serving the very request that was cancelled. A cancel of a queued request, or
   one that comes too late, therefore never disturbs the request now on that connection.
   */
  lemma InterruptsReachTheirTarget(cfg: Config, run: seq<State>, i: nat, e: nat)
    requires Run(cfg, run) && i < |run| && e < |run[i].g.log| && run[i].g.log[e].Interrupted?
    ensures var hit := run[i].g.log[e];
            hit.owner == Some(hit.cause) && hit.cause in run[i].g.controls && run[i].g.controls[hit.cause].cancelled
  {
    RunInv(cfg, run, i);
    assert EventOk(run[i].g, run[i].g.log[e]);
  }

  /** A published handle always names the connection that serves its request right now. */
  lemma HandlesNameTheServingConnection(cfg: Config, run: seq<State>, i: nat, c: CtlId)
    requires Run(cfg, run) && i < |run| && c in run[i].g.controls && run[i].g.controls[c].handle.Some?
    ensures var k := run[i].g.controls[c];
            match k.handle.value
            case ReaderConn(w, e) => Serving(PcOf(run[i], w)) && PcOf(run[i], w).c == c && PcOf(run[i], w).e == e
            case ViewConn(v) => Owner(run[i].g, ViewConn(v)) == Some(c)
  {
    RunInv(cfg, run, i);
    var s := run[i];
    var conn := s.g.controls[c].handle.value;
    assert Owner(s.g, conn) == Some(c);
    if conn.ReaderConn? {
      assert LocalInv(s.g, conn.worker, PcOf(s, conn.worker));
    }
  }

  /**
   No request owns the connection of a worker that takes its next job. An interrupt pending on it
   ended with the request that it served: Release stands for the reset that SQLite makes.
   */
  lemma IdleConnectionsAreQuiet(cfg: Config, run: seq<State>, i: nat, w: Tid, e: nat)
    requires Run(cfg, run) && i < |run| && PcOf(run[i], w).Ready?
    ensures ReaderConn(w, e) !in run[i].g.hit && ReaderConn(w, e) !in run[i].g.owner
  {
    RunInv(cfg, run, i);
    assert LocalInv(run[i].g, w, PcOf(run[i], w));
    assert ReaderConn(w, e) !in run[i].g.owner;
  }

  // ---------- Each request is decided once ----------

  /** No answer is sent twice for one request. */
  lemma AtMostOneCompletion(cfg: Config, run: seq<State>, i: nat, e: nat, f: nat)
    requires Run(cfg, run) && i < |run| && e < f < |run[i].g.log|
    requires run[i].g.log[e].Sent? && run[i].g.log[f].Sent?
    ensures run[i].g.log[e].c != run[i].g.log[f].c
  {
    RunInv(cfg, run, i);
  }

  /** A caller told "queued" cancelled a request that never enters a search, and whose answer is that reason. */
  lemma QueuedMeansNeverSearched(cfg: Config, run: seq<State>, i: nat, c: CtlId)
    requires Run(cfg, run) && i < |run| && Returned(c, WasQueued) in run[i].g.log
    ensures Entered(c) !in run[i].g.log
    ensures c in run[i].g.controls && run[i].g.controls[c].reason != NoReason
    ensures var k := run[i].g.controls[c]; k.sent.Some? && SpeaksFor(k.reason, k.sent.value)
    ensures run[i].g.controls[c].claim.ByCanceller? && run[i].g.controls[c].phase == Terminal
  {
    RunInv(cfg, run, i);
    var g := run[i].g;
    assert forall event <- g.log :: EventOk(g, event);
    assert ControlOk(g.controls[c]);
  }

  /** The "no cancellation reason" answers are never given: every cancelled request has its reason. */
  lemma FallbacksAreUnreachable(cfg: Config, run: seq<State>, i: nat, e: nat)
    requires Run(cfg, run) && i < |run| && e < |run[i].g.log|
    ensures !run[i].g.log[e].Fallback?
    ensures run[i].g.log[e].Sent? ==> run[i].g.log[e].outcome != Unexplained && run[i].g.log[e].outcome != Response(true)
  {
    RunInv(cfg, run, i);
    var event := run[i].g.log[e];
    assert EventOk(run[i].g, event);
    if event.Sent? {
      assert ControlOk(run[i].g.controls[event.c]);
    }
  }

  /** Reasons, claims and answers, once set, are set for good. */
  lemma StepEvolves(cfg: Config, s: State, s': State, c: CtlId)
    requires Inv(cfg, s) && Next(cfg, s, s') && c in s.g.controls
    ensures c in s'.g.controls && Evolves(s.g.controls[c], s'.g.controls[c])
  {
    if t: Tid :| ThreadStep(cfg, s, t, s') {
      assert LocalInv(s.g, t, PcOf(s, t));
      hide SharedInv, LocalInv, LocalStep;
      StepKeeps(cfg, s.g, t, PcOf(s, t), s'.g, PcOf(s', t));
      assert Rely(s.g, s'.g, t + 1);
      assert EvolvesBeside(s.g.controls[c], s'.g.controls[c], t + 1);
    }
  }

  /** Along a run the first reason, the one claim and the one answer of a request never change. */
  lemma {:induction false} FirstReasonStands(cfg: Config, run: seq<State>, i: nat, j: nat, c: CtlId)
    requires Run(cfg, run) && i <= j < |run| && c in run[i].g.controls
    ensures c in run[j].g.controls && Evolves(run[i].g.controls[c], run[j].g.controls[c])
    decreases j
  {
    hide Inv, Next;
    if i < j {
      FirstReasonStands(cfg, run, i, j - 1, c);
      RunInv(cfg, run, j - 1);
      StepEvolves(cfg, run[j - 1], run[j], c);
    }
  }

  // ---------- The registry ----------

  /** The registry is bounded, keyed by request id, and every entry has a thread bound to remove it. */
  lemma RegistryIsHeld(cfg: Config, run: seq<State>, i: nat, id: string)
    requires Run(cfg, run) && i < |run|
    ensures |run[i].g.registry| <= cfg.readers + cfg.capacity
    ensures id in run[i].g.registry ==>
              var c := run[i].g.registry[id];
              c in run[i].g.controls && run[i].g.controls[c].requestId == id
              && exists t: Tid :: HasControl(PcOf(run[i], t)) && PcOf(run[i], t).c == c && Holds(run[i].g.controls[c], t, PcOf(run[i], t), c)
  {
    RunInv(cfg, run, i);
    if id in run[i].g.registry {
      var c := run[i].g.registry[id];
      var k := run[i].g.controls[c];
      var t := if k.claim == Unclaimed then k.creator else k.claim.tid;
      assert Registered(run[i].g, c);
      assert LocalInv(run[i].g, t, PcOf(run[i], t));
      assert Holds(k, t, PcOf(run[i], t), c);
    }
  }

  /** Entries cannot leak: once no thread is inside a call or a job, the registry is empty. */
  lemma QuiescentRegistryIsEmpty(cfg: Config, run: seq<State>, i: nat)
    requires Run(cfg, run) && i < |run|
    requires forall t: Tid :: !HasControl(PcOf(run[i], t))
    ensures run[i].g.registry == map[]
  {
    forall id | id in run[i].g.registry
      ensures false
    {
      RegistryIsHeld(cfg, run, i, id);
    }
  }

  /** The thread that may take control c out of the registry at this step. */
  predicate Removing(pc: Pc, c: CtlId) {
    match pc
    case Submitting(c', at) => c' == c && at == Reject
    case Cancelling(c', _, at, _) => c' == c && at == RemoveEntry
    case Viewing(c', _, at) => c' == c && at.Remove?
    case Working(c', _, at) => c' == c && at == Drop
    case _ => false
  }

  /** The three ways a step may treat the registry. */
  lemma RegistryMoves(cfg: Config, g: Shared, t: Tid, pc: Pc, g': Shared, pc': Pc)
    requires LocalStep(cfg, g, t, pc, g', pc')
    ensures || g'.registry == g.registry
            || (pc.Register? && pc.id !in g.registry && pc'.c !in g.controls && g'.registry == g.registry[pc.id := pc'.c])
            || (HasControl(pc) && pc.c in g.controls && Removing(pc, pc.c) && g'.registry == Unregister(g, pc.c).registry)
  {
    match pc
    case Cancelling(c, why, at, back) =>
      hide RegisterStep, SubmitStep, ViewStep, WorkStep;
    case Viewing(c, v, at) =>
      hide RegisterStep, SubmitStep, CancelStep, WorkStep;
    case Working(c, e, at) =>
      hide RegisterStep, SubmitStep, CancelStep, ViewStep;
    case _ =>
      hide CancelStep, ViewStep, WorkStep;
  }

  /**
   A step takes an entry out only on behalf of the control stored in it, and only when that
   request is decided or was refused by the queue; it never replaces an entry. So a finished
   request cannot evict a later one that reuses its id.
   */
  lemma RemovalIsExact(cfg: Config, s: State, t: Tid, s': State, id: string)
    requires Inv(cfg, s) && ThreadStep(cfg, s, t, s')
    requires id in s.g.registry && !(id in s'.g.registry && s'.g.registry[id] == s.g.registry[id])
    ensures id !in s'.g.registry && Removing(PcOf(s, t), s.g.registry[id])
    ensures s.g.controls[s.g.registry[id]].claim != Unclaimed || PcOf(s, t).Submitting?
  {
    var pc, c := PcOf(s, t), s.g.registry[id];
    assert LocalInv(s.g, t, pc) && s.g.controls[c].requestId == id;
    hide LocalStep, HolderInv, OwnerInv, HandleInv, LogInv, Inv, SharedInv;
    RegistryMoves(cfg, s.g, t, pc, s'.g, PcOf(s', t));
  }
}
