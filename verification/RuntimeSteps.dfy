/**
 Every step of every thread keeps the invariant: it re-establishes the shared part,
 moves its own thread to a position whose assertion holds, and stays within what
 every other thread relies on.
 */
module RuntimeSteps {
  import opened Wrappers
  import opened RuntimeProtocol
  import opened RuntimeInvariants

  // ---------- Elementary updates of the shared state ----------

  lemma EventStable(g: Shared, c: CtlId, k': Control, event: Event)
    requires c in g.controls && Evolves(g.controls[c], k') && ControlOk(g.controls[c]) && ControlOk(k')
    requires EventOk(g, event)
    ensures EventOk(Put(g, c, k'), event)
  {
  }

  /** A new value for one control block, with the handle unchanged or naming an owned connection. */
  lemma PutKeeps(cfg: Config, g: Shared, c: CtlId, k': Control)
    requires SharedInv(cfg, g)
    requires c in g.controls && Evolves(g.controls[c], k') && ControlOk(k')
    requires k'.handle.Some? && k'.handle != g.controls[c].handle ==> Owner(g, k'.handle.value) == Some(c)
    ensures SharedInv(cfg, Put(g, c, k'))
  {
    var g' := Put(g, c, k');
    forall i | 0 <= i < |g'.log|
      ensures EventOk(g', g'.log[i])
    {
      EventStable(g, c, k', g.log[i]);
    }
    assert LogInv(g');
    assert HandleInv(g');
    assert TableInv(cfg, g');
  }

  lemma LogKeeps(cfg: Config, g: Shared, event: Event)
    requires SharedInv(cfg, g)
    requires EventOk(g, event)
    requires event.Sent? ==> forall i :: 0 <= i < |g.log| && g.log[i].Sent? ==> g.log[i].c != event.c
    ensures SharedInv(cfg, Log(g, event))
  {
    var g' := Log(g, event);
    assert forall i :: 0 <= i < |g.log| ==> EventOk(g', g.log[i]);
    assert LogInv(g');
    assert HandleInv(g');
    assert TableInv(cfg, g');
  }

  lemma StrikeKeeps(cfg: Config, g: Shared, conn: Conn, c: CtlId)
    requires SharedInv(cfg, g)
    requires c in g.controls && g.controls[c].cancelled && Owner(g, conn) == Some(c)
    ensures SharedInv(cfg, Strike(g, conn, c))
  {
    LogKeeps(cfg, g, Interrupted(conn, c, Owner(g, conn)));
    var g' := Strike(g, conn, c);
    assert forall i :: 0 <= i < |g'.log| ==> EventOk(Log(g, Interrupted(conn, c, Owner(g, conn))), g'.log[i]);
    assert LogInv(g');
    assert HandleInv(g');
    assert TableInv(cfg, g');
  }

  lemma UnregisterKeeps(cfg: Config, g: Shared, c: CtlId)
    requires SharedInv(cfg, g) && c in g.controls
    ensures SharedInv(cfg, Unregister(g, c))
  {
    var g' := Unregister(g, c);
    assert forall i :: 0 <= i < |g.log| ==> EventOk(g, g.log[i]) && EventOk(g', g.log[i]);
    assert HandleInv(g');
    if Registered(g, c) {
      assert g'.registry.Keys == g.registry.Keys - {g.controls[c].requestId};
      assert |g'.registry| == |g'.registry.Keys| && |g.registry| == |g.registry.Keys|;
    }
    assert TableInv(cfg, g');
  }

  lemma SendKeeps(cfg: Config, g: Shared, c: CtlId, out: Outcome)
    requires SharedInv(cfg, g)
    requires c in g.controls && g.controls[c].completion && g.controls[c].phase == Terminal && SentOk(g.controls[c], out)
    ensures SharedInv(cfg, SendOnce(g, c, out))
  {
    var k := g.controls[c];
    forall i | 0 <= i < |g.log| && g.log[i].Sent?
      ensures g.log[i].c != c
    {
      assert EventOk(g, g.log[i]);
    }
    PutKeeps(cfg, g, c, k.(completion := false, sent := Some(out)));
    LogKeeps(cfg, Put(g, c, k.(completion := false, sent := Some(out))), Sent(c, out));
  }

  lemma AcquireKeeps(cfg: Config, g: Shared, conn: Conn, c: CtlId)
    requires SharedInv(cfg, g) && c in g.controls && conn !in g.owner
    ensures SharedInv(cfg, g.(owner := g.owner[conn := c]))
  {
    var g' := g.(owner := g.owner[conn := c]);
    assert forall i :: 0 <= i < |g.log| ==> EventOk(g, g.log[i]) && EventOk(g', g.log[i]);
    assert TableInv(cfg, g');
  }

  lemma ReleaseHandles(g: Shared, conn: Conn)
    requires HandleInv(g)
    requires forall c <- g.controls :: g.controls[c].handle != Some(conn)
    ensures HandleInv(Release(g, conn))
  {
    var g' := Release(g, conn);
    forall c <- g'.controls | g'.controls[c].handle.Some?
      ensures Owner(g', g'.controls[c].handle.value) == Some(c)
    {
      assert g.controls[c].handle.value != conn;
      assert Owner(g, g.controls[c].handle.value) == Some(c);
    }
    forall d <- g'.owner
      ensures g'.owner[d] in g'.controls
    {
      assert d in g.owner;
    }
  }

  lemma ReleaseKeeps(cfg: Config, g: Shared, conn: Conn)
    requires SharedInv(cfg, g)
    requires forall c <- g.controls :: g.controls[c].handle != Some(conn)
    ensures SharedInv(cfg, Release(g, conn))
  {
    var g' := Release(g, conn);
    ReleaseHandles(g, conn);
    assert forall i :: 0 <= i < |g.log| ==> EventOk(g, g.log[i]) && EventOk(g', g.log[i]);
    assert TableInv(cfg, g');
  }

  lemma QueueKeeps(cfg: Config, g: Shared, queue: seq<CtlId>)
    requires SharedInv(cfg, g)
    requires |queue| <= cfg.capacity && forall c <- queue :: c in g.controls && !g.controls[c].isView
    ensures SharedInv(cfg, g.(queue := queue))
  {
    var g' := g.(queue := queue);
    assert forall i :: 0 <= i < |g.log| ==> EventOk(g, g.log[i]) && EventOk(g', g.log[i]);
    assert HandleInv(g');
  }

  // ---------- What the other threads see of them ----------

  /** Same tables, same owners, and at most one control block moved on. */
  lemma PutRely(g: Shared, g': Shared, c: CtlId, u: Tid)
    requires c in g.controls && c in g'.controls && g'.controls == g.controls[c := g'.controls[c]]
    requires EvolvesBeside(g.controls[c], g'.controls[c], u)
    requires RelyOwners(g, g', u)
    requires g'.registry == g.registry
    ensures Rely(g, g', u)
  {
  }

  lemma UnregisterRely(g: Shared, g': Shared, c: CtlId, u: Tid)
    requires c in g.controls && g'.controls == g.controls && g'.owner == g.owner
    requires g'.registry == Unregister(g, c).registry
    ensures Rely(g, g', u)
  {
  }

  lemma TablesRely(g: Shared, g': Shared, u: Tid)
    requires g'.controls == g.controls && g'.owner == g.owner && g'.registry == g.registry
    ensures Rely(g, g', u)
  {
  }

  lemma RegisterRely(g: Shared, g': Shared, c: CtlId, k: Control, u: Tid)
    requires c !in g.controls && k.creator != u && k.claim == Unclaimed && k.requestId !in g.registry
    requires g'.controls == g.controls[c := k] && g'.owner == g.owner && g'.registry == g.registry[k.requestId := c]
    ensures Rely(g, g', u)
  {
  }

  // ---------- The acting thread's own bookkeeping ----------

  /** Thread t works on c alone, so only its duty towards c can change. */
  lemma HolderMoves(g: Shared, g': Shared, t: Tid, pc: Pc, pc': Pc, c: CtlId)
    requires HolderInv(g, t, pc) && HasControl(pc) && pc.c == c
    requires c in g.controls && c in g'.controls && g'.controls == g.controls[c := g'.controls[c]]
    requires forall d <- g.controls :: d != c && Registered(g', d) ==> Registered(g, d)
    requires Registered(g', c) ==> Holds(g'.controls[c], t, pc', c)
    ensures HolderInv(g', t, pc')
  {
    forall d <- g'.controls | Registered(g', d)
      ensures Holds(g'.controls[d], t, pc', d)
    {
      if d != c {
        assert Registered(g, d);
        assert Holds(g.controls[d], t, pc, d);
      }
    }
  }

  /** The facts a step needs about the control block it works on. */
  lemma OwnFacts(cfg: Config, g: Shared, t: Tid, pc: Pc)
    requires SharedInv(cfg, g) && LocalInv(g, t, pc) && HasControl(pc)
    ensures pc.c in g.controls && ControlOk(g.controls[pc.c]) && PcInv(g.controls[pc.c], t, pc)
    ensures g.controls[pc.c].handle.Some? ==> Owner(g, g.controls[pc.c].handle.value) == Some(pc.c)
    ensures Registered(g, pc.c) ==> Holds(g.controls[pc.c], t, pc, pc.c)
    ensures HoldsView(pc) ==> Owner(g, ViewConn(pc.v)) == Some(pc.c)
    ensures Serving(pc) ==> Owner(g, ReaderConn(t, pc.e)) == Some(pc.c)
    ensures pc.Working? && !Serving(pc) ==> ReaderConn(t, pc.e) !in g.owner
  {
  }

  lemma HitCancelled(cfg: Config, g: Shared, conn: Conn, c: CtlId)
    requires SharedInv(cfg, g) && Owner(g, conn) == Some(c) && c in g.controls
    ensures conn in g.hit ==> g.controls[c].reason != NoReason
  {
  }

  /** When c owns conn without publishing it, nobody publishes it. */
  lemma HandleFree(cfg: Config, g: Shared, conn: Conn, c: CtlId)
    requires SharedInv(cfg, g)
    requires Owner(g, conn) == Some(c) && c in g.controls && g.controls[c].handle == None
    ensures forall d <- g.controls :: g.controls[d].handle != Some(conn)
  {
  }

  lemma IdleHolder(g: Shared, g': Shared, t: Tid, pc: Pc, pc': Pc)
    requires HolderInv(g, t, pc) && !HasControl(pc)
    requires g'.controls == g.controls && g'.registry == g.registry
    ensures HolderInv(g', t, pc')
  {
    forall d <- g'.controls | Registered(g', d)
      ensures Holds(g'.controls[d], t, pc', d)
    {
      assert Registered(g, d);
      assert Holds(g.controls[d], t, pc, d);
    }
  }

  lemma SameOwners(g: Shared, g': Shared, t: Tid, pc: Pc, pc': Pc)
    requires OwnerInv(g, t, pc) && g'.owner == g.owner
    requires Serving(pc) == Serving(pc') && (Serving(pc) ==> pc'.e == pc.e && pc'.c == pc.c)
    requires HoldsView(pc') ==> HoldsView(pc) && pc'.v == pc.v && pc'.c == pc.c
    ensures OwnerInv(g', t, pc')
  {
  }

  lemma SameOwnersRely(g: Shared, g': Shared, u: Tid)
    requires g'.owner == g.owner
    ensures RelyOwners(g, g', u)
  {
  }

  // ---------- Admission ----------

  lemma GrowsByOne(m: map<string, CtlId>, id: string, c: CtlId)
    requires id !in m
    ensures |m[id := c]| == |m| + 1
  {
    assert m[id := c].Keys == m.Keys + {id};
    assert |m[id := c].Keys| == |m[id := c]| && |m.Keys| == |m|;
  }

  lemma RegisterTables(cfg: Config, g: Shared, id: string, c: CtlId, k: Control)
    requires TableInv(cfg, g) && id !in g.registry && |g.registry| < cfg.readers + cfg.capacity
    requires c !in g.controls && k.requestId == id
    ensures TableInv(cfg, Put(g, c, k).(registry := g.registry[id := c]))
  {
    GrowsByOne(g.registry, id, c);
  }

  lemma RegisterLog(g: Shared, id: string, c: CtlId, k: Control)
    requires LogInv(g) && c !in g.controls
    ensures LogInv(Put(g, c, k).(registry := g.registry[id := c]))
  {
    var g' := Put(g, c, k).(registry := g.registry[id := c]);
    forall i | 0 <= i < |g'.log|
      ensures EventOk(g', g'.log[i])
    {
      assert EventOk(g, g.log[i]);
    }
  }

  lemma RegisterHandles(g: Shared, id: string, c: CtlId, k: Control)
    requires HandleInv(g) && c !in g.controls && k.handle == None
    ensures HandleInv(Put(g, c, k).(registry := g.registry[id := c]))
  {
  }

  lemma RegisterShared(cfg: Config, g: Shared, id: string, c: CtlId, t: Tid, isView: bool)
    requires SharedInv(cfg, g) && id !in g.registry && |g.registry| < cfg.readers + cfg.capacity
    requires c !in g.controls
    ensures SharedInv(cfg, Put(g, c, NewControl(id, t, isView)).(registry := g.registry[id := c]))
  {
    var k := NewControl(id, t, isView);
    hide TableInv, LogInv, HandleInv;
    RegisterTables(cfg, g, id, c, k);
    RegisterLog(g, id, c, k);
    RegisterHandles(g, id, c, k);
  }

  lemma RegisterHolder(g: Shared, t: Tid, pc: Pc, g': Shared, pc': Pc, id: string, c: CtlId, k: Control)
    requires HolderInv(g, t, pc) && !HasControl(pc)
    requires c !in g.controls && g' == Put(g, c, k).(registry := g.registry[id := c])
    requires k.requestId == id && id !in g.registry && Holds(k, t, pc', c)
    ensures HolderInv(g', t, pc')
  {
    forall d <- g'.controls | Registered(g', d)
      ensures Holds(g'.controls[d], t, pc', d)
    {
      if d != c {
        assert Registered(g, d);
        assert Holds(g.controls[d], t, pc, d);
      }
    }
  }

  lemma RegisterKeeps(cfg: Config, g: Shared, t: Tid, pc: Pc, g': Shared, pc': Pc)
    requires SharedInv(cfg, g) && LocalInv(g, t, pc)
    requires pc.Register? && RegisterStep(cfg, g, t, pc.id, pc.target, g', pc')
    ensures SharedInv(cfg, g') && LocalInv(g', t, pc') && forall u: Tid :: u != t ==> Rely(g, g', u)
  {
    hide SharedInv, HolderInv, OwnerInv, Rely;
    SameOwners(g, g', t, pc, pc');
    if g' == g {
      IdleHolder(g, g', t, pc, pc');
      forall u: Tid { TablesRely(g, g', u); }
    } else {
      var k := g'.controls[pc'.c];
      RegisterShared(cfg, g, pc.id, pc'.c, t, pc.target.Some?);
      RegisterHolder(g, t, pc, g', pc', pc.id, pc'.c, k);
      forall u: Tid | u != t { RegisterRely(g, g', pc'.c, k, u); }
    }
  }

  /** Steps of a thread that has no request: calling in, and taking a job. */
  lemma IdleKeeps(cfg: Config, g: Shared, t: Tid, pc: Pc, g': Shared, pc': Pc)
    requires SharedInv(cfg, g) && LocalInv(g, t, pc)
    requires (pc.Idle? || pc.Ready?) && LocalStep(cfg, g, t, pc, g', pc')
    ensures SharedInv(cfg, g') && LocalInv(g', t, pc') && forall u: Tid :: u != t ==> Rely(g, g', u)
  {
    hide HolderInv, OwnerInv, Rely;
    if pc.Ready? {
      QueueKeeps(cfg, g, g'.queue);
    }
    SameOwners(g, g', t, pc, pc');
    IdleHolder(g, g', t, pc, pc');
    forall u: Tid { TablesRely(g, g', u); }
  }

  // ---------- search ----------

  lemma SubmitShared(cfg: Config, g: Shared, t: Tid, c: CtlId, at: SubmitAt, g': Shared, pc': Pc)
    requires SharedInv(cfg, g) && c in g.controls && SubmitInv(g.controls[c], t, at)
    requires SubmitStep(cfg, g, c, at, g', pc')
    ensures SharedInv(cfg, g')
  {
    if at.Enqueue? && g' != g {
      QueueKeeps(cfg, g, g'.queue);
    } else if at.Reject? {
      UnregisterKeeps(cfg, g, c);
    } else if g' != g {
      LogKeeps(cfg, g, g'.log[|g.log|]);
    }
  }

  lemma SubmitMoves(cfg: Config, g: Shared, t: Tid, c: CtlId, at: SubmitAt, g': Shared, pc': Pc)
    requires c in g.controls && SubmitInv(g.controls[c], t, at) && ControlOk(g.controls[c])
    requires Registered(g, c) ==> Holds(g.controls[c], t, Submitting(c, at), c)
    requires SubmitStep(cfg, g, c, at, g', pc')
    ensures g'.controls == g.controls && g'.owner == g.owner
    ensures if at.Reject? then g'.registry == Unregister(g, c).registry else g'.registry == g.registry
    ensures Registered(g', c) ==> Holds(g'.controls[c], t, pc', c)
    ensures HasControl(pc') ==> pc'.c == c && PcInv(g'.controls[c], t, pc')
    ensures !Serving(pc') && !HoldsView(pc')
  {
  }

  lemma SubmitKeeps(cfg: Config, g: Shared, t: Tid, pc: Pc, g': Shared, pc': Pc)
    requires SharedInv(cfg, g) && LocalInv(g, t, pc)
    requires pc.Submitting? && pc.c in g.controls && SubmitStep(cfg, g, pc.c, pc.at, g', pc')
    ensures SharedInv(cfg, g') && LocalInv(g', t, pc') && forall u: Tid :: u != t ==> Rely(g, g', u)
  {
    hide SharedInv, HolderInv, OwnerInv, Rely, SubmitStep, Holds, ControlOk;
    OwnFacts(cfg, g, t, pc);
    SubmitShared(cfg, g, t, pc.c, pc.at, g', pc');
    SubmitMoves(cfg, g, t, pc.c, pc.at, g', pc');
    SameOwners(g, g', t, pc, pc');
    HolderMoves(g, g', t, pc, pc', pc.c);
    forall u: Tid
      ensures Rely(g, g', u)
    {
      if pc.at.Reject? {
        UnregisterRely(g, g', pc.c, u);
      } else {
        TablesRely(g, g', u);
      }
    }
  }

  // ---------- cancel_exact ----------

  lemma InterruptKeeps(cfg: Config, g: Shared, c: CtlId)
    requires SharedInv(cfg, g) && c in g.controls && g.controls[c].cancelled && g.controls[c].stamped
    requires g.controls[c].claim.ByWorker? || g.controls[c].claim.ByView?
    requires g.controls[c].handle.Some? ==> Owner(g, g.controls[c].handle.value) == Some(c)
    ensures SharedInv(cfg, Log(if g.controls[c].handle.Some? then Strike(g, g.controls[c].handle.value, c) else g,
                               Returned(c, WasActive)))
  {
    hide SharedInv;
    var handle := g.controls[c].handle;
    if handle.Some? {
      StrikeKeeps(cfg, g, handle.value, c);
      LogKeeps(cfg, Strike(g, handle.value, c), Returned(c, WasActive));
    } else {
      LogKeeps(cfg, g, Returned(c, WasActive));
    }
  }

  lemma CancelShared(cfg: Config, g: Shared, t: Tid, c: CtlId, why: Reason, at: CancelAt, back: Return, g': Shared, pc': Pc)
    requires SharedInv(cfg, g) && c in g.controls && CancelInv(g.controls[c], t, why, at, back) && ControlOk(g.controls[c])
    requires g.controls[c].handle.Some? ==> Owner(g, g.controls[c].handle.value) == Some(c)
    requires CancelStep(g, t, c, why, at, back, g', pc')
    ensures SharedInv(cfg, g')
  {
    hide SharedInv;
    var k := g.controls[c];
    match at
    case CasReason =>
      if k.reason == NoReason {
        PutKeeps(cfg, g, c, k.(reason := why));
      }
    case StoreFlag => PutKeeps(cfg, g, c, k.(cancelled := true));
    case Stamp => PutKeeps(cfg, g, c, k.(stamped := true));
    case LoadPhase =>
      if k.phase == Terminal {
        LogKeeps(cfg, g, Returned(c, AlreadyTerminal));
      }
    case CasPhase =>
      if k.phase == Queued {
        PutKeeps(cfg, g, c, k.(phase := Terminal, claim := ByCanceller(t)));
      }
    case Interrupt => InterruptKeeps(cfg, g, c);
    case LoadReason =>
    case SendResult(out) => SendKeeps(cfg, g, c, out);
    case RemoveEntry =>
      UnregisterKeeps(cfg, g, c);
      LogKeeps(cfg, Unregister(g, c), Returned(c, WasQueued));
  }

  lemma DecidingShape(g: Shared, t: Tid, c: CtlId, why: Reason, at: CancelAt, back: Return, g': Shared, pc': Pc)
    requires c in g.controls && CancelInv(g.controls[c], t, why, at, back) && ControlOk(g.controls[c]) && Deciding(at)
    requires CancelStep(g, t, c, why, at, back, g', pc')
    ensures g'.controls == g.controls[c := g'.controls[c]] && g'.owner == g.owner && g'.registry == g.registry
    ensures (HasControl(pc') ==> pc'.c == c) && !Serving(pc') && !HoldsView(pc')
  {
    hide SentOk;
  }

  lemma DecidingHolds(g: Shared, t: Tid, c: CtlId, why: Reason, at: CancelAt, back: Return, g': Shared, pc': Pc)
    requires c in g.controls && CancelInv(g.controls[c], t, why, at, back) && ControlOk(g.controls[c]) && Deciding(at)
    requires Registered(g, c) ==> Holds(g.controls[c], t, Cancelling(c, why, at, back), c)
    requires CancelStep(g, t, c, why, at, back, g', pc')
    ensures Registered(g', c) ==> Holds(g'.controls[c], t, pc', c)
  {
    hide SentOk;
  }

  /** Where cancel_exact goes while the request is still anybody's, and what it then knows. */
  lemma DecidingMoves(g: Shared, t: Tid, c: CtlId, why: Reason, at: CancelAt, back: Return, g': Shared, pc': Pc)
    requires c in g.controls && CancelInv(g.controls[c], t, why, at, back) && ControlOk(g.controls[c]) && Deciding(at)
    requires Registered(g, c) ==> Holds(g.controls[c], t, Cancelling(c, why, at, back), c)
    requires CancelStep(g, t, c, why, at, back, g', pc')
    ensures g'.controls == g.controls[c := g'.controls[c]] && g'.owner == g.owner && g'.registry == g.registry
    ensures Registered(g', c) ==> Holds(g'.controls[c], t, pc', c)
    ensures HasControl(pc') ==> pc'.c == c && PcInv(g'.controls[c], t, pc')
    ensures !Serving(pc') && !HoldsView(pc')
  {
    hide ViewInv, WorkInv, SentOk, Holds, Registered;
    DecidingShape(g, t, c, why, at, back, g', pc');
    DecidingHolds(g, t, c, why, at, back, g', pc');
  }

  /** Where it goes once the request is decided. */
  lemma DecidedMoves(g: Shared, t: Tid, c: CtlId, why: Reason, at: CancelAt, back: Return, g': Shared, pc': Pc)
    requires c in g.controls && CancelInv(g.controls[c], t, why, at, back) && ControlOk(g.controls[c]) && !Deciding(at)
    requires Registered(g, c) ==> Holds(g.controls[c], t, Cancelling(c, why, at, back), c)
    requires CancelStep(g, t, c, why, at, back, g', pc')
    ensures g'.controls == g.controls[c := g'.controls[c]] && g'.owner == g.owner
    ensures if at.RemoveEntry? then g'.controls == g.controls && g'.registry == Unregister(g, c).registry else g'.registry == g.registry
    ensures Registered(g', c) ==> Holds(g'.controls[c], t, pc', c)
    ensures HasControl(pc') ==> pc'.c == c && PcInv(g'.controls[c], t, pc')
    ensures !Serving(pc') && !HoldsView(pc')
  {
  }

  lemma CancelEvolves(g: Shared, t: Tid, c: CtlId, why: Reason, at: CancelAt, back: Return, g': Shared, pc': Pc, u: Tid)
    requires c in g.controls && CancelInv(g.controls[c], t, why, at, back) && ControlOk(g.controls[c]) && u != t
    requires CancelStep(g, t, c, why, at, back, g', pc')
    ensures c in g'.controls && EvolvesBeside(g.controls[c], g'.controls[c], u)
  {
    hide Holds, SentOk, ViewInv, WorkInv;
  }

  lemma CancelKeeps(cfg: Config, g: Shared, t: Tid, pc: Pc, g': Shared, pc': Pc)
    requires SharedInv(cfg, g) && LocalInv(g, t, pc)
    requires pc.Cancelling? && pc.c in g.controls && CancelStep(g, t, pc.c, pc.why, pc.step, pc.back, g', pc')
    ensures SharedInv(cfg, g') && LocalInv(g', t, pc') && forall u: Tid :: u != t ==> Rely(g, g', u)
  {
    hide SharedInv, HolderInv, OwnerInv, Rely, CancelStep, Holds, ControlOk, EvolvesBeside;
    OwnFacts(cfg, g, t, pc);
    CancelShared(cfg, g, t, pc.c, pc.why, pc.step, pc.back, g', pc');
    if Deciding(pc.step) {
      DecidingMoves(g, t, pc.c, pc.why, pc.step, pc.back, g', pc');
    } else {
      DecidedMoves(g, t, pc.c, pc.why, pc.step, pc.back, g', pc');
    }
    SameOwners(g, g', t, pc, pc');
    HolderMoves(g, g', t, pc, pc', pc.c);
    forall u: Tid | u != t
      ensures Rely(g, g', u)
    {
      CancelEvolves(g, t, pc.c, pc.why, pc.step, pc.back, g', pc', u);
      SameOwnersRely(g, g', u);
      if pc.step.RemoveEntry? {
        UnregisterRely(g, g', pc.c, u);
      } else {
        PutRely(g, g', pc.c, u);
      }
    }
  }

  // ---------- query_view ----------

  lemma ViewShared(cfg: Config, g: Shared, t: Tid, c: CtlId, v: nat, at: ViewAt, g': Shared, pc': Pc)
    requires SharedInv(cfg, g) && c in g.controls && ViewInv(g.controls[c], t, v, at) && ControlOk(g.controls[c])
    requires HoldsView(Viewing(c, v, at)) ==> Owner(g, ViewConn(v)) == Some(c)
    requires ViewStep(g, t, c, v, at, g', pc')
    ensures SharedInv(cfg, g')
  {
    hide SharedInv;
    var k := g.controls[c];
    match at
    case Lock =>
      if g' != g {
        AcquireKeeps(cfg, g, ViewConn(v), c);
      }
    case Publish => PutKeeps(cfg, g, c, k.(handle := Some(ViewConn(v)), handleLock := Some(t)));
    case Claiming => PutKeeps(cfg, g, c, g'.controls[c]);
    case Flag =>
      PutKeeps(cfg, g, c, k.(handleLock := None));
      if k.cancelled {
        StrikeKeeps(cfg, Put(g, c, k.(handleLock := None)), ViewConn(v), c);
      }
    case Gate =>
      if g' != g {
        LogKeeps(cfg, g, Entered(c));
      }
    case Running =>
    case Clear(r) => PutKeeps(cfg, g, c, k.(handle := None));
    case Unlock(r) =>
      HandleFree(cfg, g, ViewConn(v), c);
      ReleaseKeeps(cfg, g, ViewConn(v));
    case Finish(r) => PutKeeps(cfg, g, c, g'.controls[c]);
    case Remove(r) => UnregisterKeeps(cfg, g, c);
    case _ =>
      if g' != g {
        LogKeeps(cfg, g, g'.log[|g.log|]);
      }
  }

  /** Where a view query goes next, and what it then knows. */
  lemma ViewShape(g: Shared, t: Tid, c: CtlId, v: nat, at: ViewAt, g': Shared, pc': Pc)
    requires c in g.controls && ViewInv(g.controls[c], t, v, at) && ViewStep(g, t, c, v, at, g', pc')
    ensures g'.controls == g.controls[c := g'.controls[c]]
    ensures if at.Remove? then g'.controls == g.controls && g'.registry == Unregister(g, c).registry else g'.registry == g.registry
    ensures HasControl(pc') ==> pc'.c == c
  {
    hide SentOk;
  }

  lemma ViewHolds(g: Shared, t: Tid, c: CtlId, v: nat, at: ViewAt, g': Shared, pc': Pc)
    requires c in g.controls && ViewInv(g.controls[c], t, v, at) && ControlOk(g.controls[c])
    requires Registered(g, c) ==> Holds(g.controls[c], t, Viewing(c, v, at), c)
    requires ViewStep(g, t, c, v, at, g', pc')
    ensures Registered(g', c) ==> Holds(g'.controls[c], t, pc', c)
  {
    hide SentOk;
  }

  lemma ViewMoves(g: Shared, t: Tid, c: CtlId, v: nat, at: ViewAt, g': Shared, pc': Pc)
    requires c in g.controls && ViewInv(g.controls[c], t, v, at) && ControlOk(g.controls[c])
    requires Registered(g, c) ==> Holds(g.controls[c], t, Viewing(c, v, at), c)
    requires at.Running? && ViewConn(v) in g.hit ==> g.controls[c].reason != NoReason
    requires ViewStep(g, t, c, v, at, g', pc')
    ensures g'.controls == g.controls[c := g'.controls[c]]
    ensures if at.Remove? then g'.controls == g.controls && g'.registry == Unregister(g, c).registry else g'.registry == g.registry
    ensures Registered(g', c) ==> Holds(g'.controls[c], t, pc', c)
    ensures HasControl(pc') ==> pc'.c == c && PcInv(g'.controls[c], t, pc')
  {
    hide CancelInv, WorkInv, SentOk, Holds, Registered;
    ViewShape(g, t, c, v, at, g', pc');
    ViewHolds(g, t, c, v, at, g', pc');
  }

  lemma ViewOwner(g: Shared, t: Tid, c: CtlId, v: nat, at: ViewAt, g': Shared, pc': Pc)
    requires OwnerInv(g, t, Viewing(c, v, at)) && c in g.controls && ViewStep(g, t, c, v, at, g', pc')
    requires g.controls[c].creator == t
    ensures OwnerInv(g', t, pc')
    ensures !at.Remove? ==> forall u: Tid :: u != t ==> RelyOwners(g, g', u)
    ensures at.Remove? ==> g'.owner == g.owner
  {
    if !at.Lock? && !at.Unlock? {
      assert g'.owner == g.owner;
      SameOwners(g, g', t, Viewing(c, v, at), pc');
    }
  }

  lemma ViewEvolves(g: Shared, t: Tid, c: CtlId, v: nat, at: ViewAt, g': Shared, pc': Pc, u: Tid)
    requires c in g.controls && ViewInv(g.controls[c], t, v, at) && ControlOk(g.controls[c]) && u != t
    requires ViewStep(g, t, c, v, at, g', pc')
    ensures c in g'.controls && EvolvesBeside(g.controls[c], g'.controls[c], u)
  {
    hide Holds, SentOk;
  }

  lemma ViewKeeps(cfg: Config, g: Shared, t: Tid, pc: Pc, g': Shared, pc': Pc)
    requires SharedInv(cfg, g) && LocalInv(g, t, pc)
    requires pc.Viewing? && pc.c in g.controls && ViewStep(g, t, pc.c, pc.v, pc.view, g', pc')
    ensures SharedInv(cfg, g') && LocalInv(g', t, pc') && forall u: Tid :: u != t ==> Rely(g, g', u)
  {
    hide SharedInv, HolderInv, OwnerInv, Rely, ViewStep, Holds, ControlOk, EvolvesBeside, RelyOwners;
    OwnFacts(cfg, g, t, pc);
    if pc.view.Running? {
      HitCancelled(cfg, g, ViewConn(pc.v), pc.c);
    }
    ViewShared(cfg, g, t, pc.c, pc.v, pc.view, g', pc');
    ViewMoves(g, t, pc.c, pc.v, pc.view, g', pc');
    ViewOwner(g, t, pc.c, pc.v, pc.view, g', pc');
    HolderMoves(g, g', t, pc, pc', pc.c);
    forall u: Tid | u != t
      ensures Rely(g, g', u)
    {
      ViewEvolves(g, t, pc.c, pc.v, pc.view, g', pc', u);
      if pc.view.Remove? {
        UnregisterRely(g, g', pc.c, u);
      } else {
        PutRely(g, g', pc.c, u);
      }
    }
  }

  // ---------- reader_worker ----------

  lemma WorkShared(cfg: Config, g: Shared, t: Tid, c: CtlId, e: nat, at: WorkAt, g': Shared, pc': Pc)
    requires SharedInv(cfg, g) && c in g.controls && WorkInv(g.controls[c], t, at) && ControlOk(g.controls[c])
    requires Serving(Working(c, e, at)) ==> Owner(g, ReaderConn(t, e)) == Some(c)
    requires !Serving(Working(c, e, at)) ==> ReaderConn(t, e) !in g.owner
    requires WorkStep(g, t, c, e, at, g', pc')
    ensures SharedInv(cfg, g')
  {
    hide SharedInv;
    var k, conn := g.controls[c], ReaderConn(t, e);
    match at
    case Took =>
    case Contend =>
      if g' != g {
        var k' := k.(phase := Active, claim := ByWorker(t));
        PutKeeps(cfg, g, c, k');
        AcquireKeeps(cfg, Put(g, c, k'), conn, c);
      }
    case Expose => PutKeeps(cfg, g, c, k.(handle := Some(conn)));
    case Poll =>
      if k.cancelled {
        StrikeKeeps(cfg, g, conn, c);
      }
    case Search => LogKeeps(cfg, g, Entered(c));
    case Hide(_) =>
      var g1 := Put(g, c, k.(handle := None));
      PutKeeps(cfg, g, c, k.(handle := None));
      HandleFree(cfg, g1, conn, c);
      ReleaseKeeps(cfg, g1, conn);
    case ReadReason(_) =>
    case ReadTerminal =>
    case Close(out) => PutKeeps(cfg, g, c, k.(phase := Terminal));
    case Send(out) => SendKeeps(cfg, g, c, out);
    case Drop => UnregisterKeeps(cfg, g, c);
    case Retire =>
  }

  /** Where a worker goes next, and what it then knows. */
  lemma WorkMoves(g: Shared, t: Tid, c: CtlId, e: nat, at: WorkAt, g': Shared, pc': Pc)
    requires c in g.controls && WorkInv(g.controls[c], t, at) && ControlOk(g.controls[c])
    requires Registered(g, c) ==> Holds(g.controls[c], t, Working(c, e, at), c)
    requires at.Search? && ReaderConn(t, e) in g.hit ==> g.controls[c].reason != NoReason
    requires WorkStep(g, t, c, e, at, g', pc')
    ensures g'.controls == g.controls[c := g'.controls[c]]
    ensures if at.Drop? then g'.controls == g.controls && g'.registry == Unregister(g, c).registry else g'.registry == g.registry
    ensures Registered(g', c) ==> Holds(g'.controls[c], t, pc', c)
    ensures HasControl(pc') ==> pc'.c == c && PcInv(g'.controls[c], t, pc')
    ensures forall u: Tid :: u != t ==> EvolvesBeside(g.controls[c], g'.controls[c], u)
  {
  }

  lemma WorkOwner(g: Shared, t: Tid, c: CtlId, e: nat, at: WorkAt, g': Shared, pc': Pc)
    requires OwnerInv(g, t, Working(c, e, at)) && c in g.controls && WorkStep(g, t, c, e, at, g', pc')
    ensures OwnerInv(g', t, pc')
    ensures forall u: Tid :: u != t ==> RelyOwners(g, g', u)
    ensures at.Drop? ==> g'.owner == g.owner
  {
    if !at.Contend? && !at.Hide? {
      assert g'.owner == g.owner;
      SameOwners(g, g', t, Working(c, e, at), pc');
    }
  }

  lemma WorkKeeps(cfg: Config, g: Shared, t: Tid, pc: Pc, g': Shared, pc': Pc)
    requires SharedInv(cfg, g) && LocalInv(g, t, pc)
    requires pc.Working? && pc.c in g.controls && WorkStep(g, t, pc.c, pc.e, pc.work, g', pc')
    ensures SharedInv(cfg, g') && LocalInv(g', t, pc') && forall u: Tid :: u != t ==> Rely(g, g', u)
  {
    hide SharedInv, HolderInv, OwnerInv, Rely, WorkStep, Holds, ControlOk, EvolvesBeside, RelyOwners;
    OwnFacts(cfg, g, t, pc);
    if pc.work.Search? {
      HitCancelled(cfg, g, ReaderConn(t, pc.e), pc.c);
    }
    WorkShared(cfg, g, t, pc.c, pc.e, pc.work, g', pc');
    WorkMoves(g, t, pc.c, pc.e, pc.work, g', pc');
    WorkOwner(g, t, pc.c, pc.e, pc.work, g', pc');
    HolderMoves(g, g', t, pc, pc', pc.c);
    forall u: Tid | u != t
      ensures Rely(g, g', u)
    {
      if pc.work.Drop? {
        UnregisterRely(g, g', pc.c, u);
      } else {
        PutRely(g, g', pc.c, u);
      }
    }
  }
}
