/**
 What the private source of a view has sent for each session once it is at rest: the effect of
 the last change delivered for it, and nothing after that.
 */
module ReconcilerEffects {
  import opened Wrappers
  import opened Reconciler

  /** The effect changes the partition of session s. */
  predicate Changes(effect: Effect, s: SessionId) {
    PartitionMutation(effect) && effect.sessionId == s
  }

  /** Nothing is sent for s from this place on. */
  ghost predicate Quiet(sent: seq<Effect>, from: nat, s: SessionId) {
    forall i :: from <= i < |sent| ==> !Changes(sent[i], s)
  }

  /** start() is still in its backfill, or before it. */
  predicate Early(starter: Starter) {
    !(starter.CatchUp? || starter.ReplayingChange? || starter.Activating? || starter.Finished? || starter.StartFailed?)
  }

  /** No change is reconciled before the backfill is over. */
  predicate EarlyInv(v: State) {
    Early(v.starter) ==> v.reconciled == map[]
  }

  /** The step settles the change c, and sends for it what a change of its kind asks for. */
  ghost predicate SettledBy(v: State, e: Event, w: State, c: Change) {
    && Outstanding(v) != [] && Outstanding(v)[0] == c && Outstanding(w) == Outstanding(v)[1..]
    && (e.Settles? || e.ChainSettles?) && e.ok
    && w.reconciled == v.reconciled[c.sessionId := c.serial]
    && w.sent == v.sent + (if !c.deletes then [Replaced(c.sessionId)] else if e.missing then [] else [Deleted(c.sessionId)])
  }

  /** The step settles no change; it changes a partition at most in the backfill. */
  ghost predicate SettlesNone(v: State, w: State) {
    && w.reconciled == v.reconciled
    && (w.sent == v.sent
        || (|w.sent| == |v.sent| + 1 && w.sent[..|v.sent|] == v.sent && (PartitionMutation(w.sent[|v.sent|]) ==> v.starter.ReplacingRecord?)))
  }

  lemma ReplayingSettles(v: State, ok: bool, missing: bool)
    requires ShapeInv(v) && v.starter.ReplayingChange? && OnSettles(v, ok, missing).Some?
    requires Healthy(OnSettles(v, ok, missing).value)
    ensures Outstanding(v) != [] && SettledBy(v, Settles(ok, missing), OnSettles(v, ok, missing).value, Outstanding(v)[0])
  {
  }

  lemma ChainSettlesChange(v: State, ok: bool, missing: bool)
    requires ShapeInv(v) && OnChainSettles(v, ok, missing).Some?
    requires Healthy(OnChainSettles(v, ok, missing).value)
    ensures Outstanding(v) != [] && SettledBy(v, ChainSettles(ok, missing), OnChainSettles(v, ok, missing).value, Outstanding(v)[0])
  {
  }

  lemma AdvancingSettlesNone(v: State)
    ensures SettlesNone(v, OnAdvances(v))
  {
  }

  lemma ReplacingSettlesNone(v: State, ok: bool, missing: bool)
    requires OnSettles(v, ok, missing).Some? && !v.starter.ReplayingChange?
    ensures SettlesNone(v, OnSettles(v, ok, missing).value)
  {
  }

  lemma BeginningSettlesNone(v: State)
    requires OnChainBegins(v).Some?
    ensures SettlesNone(v, OnChainBegins(v).value)
  {
  }

  /** Either the head of the line is settled, or nothing is. */
  lemma StepSettles(v: State, e: Event, w: State)
    requires ShapeInv(v) && Next(v, e) == Some(w) && Healthy(w)
    ensures SettlesNone(v, w) || (Outstanding(v) != [] && SettledBy(v, e, w, Outstanding(v)[0]))
  {
    hide OnAdvances, OnSettles, OnChainBegins, OnChainSettles, ShapeInv, SettledBy, Outstanding;
    match e
    case Advances => AdvancingSettlesNone(v);
    case Settles(ok, missing) =>
      if v.starter.ReplayingChange? {
        ReplayingSettles(v, ok, missing);
      } else {
        ReplacingSettlesNone(v, ok, missing);
      }
    case ChainBegins => BeginningSettlesNone(v);
    case ChainSettles(ok, missing) => ChainSettlesChange(v, ok, missing);
    case _ =>
  }

  lemma StepKeepsEarly(v: State, e: Event, w: State)
    requires EarlyInv(v) && ShapeInv(v) && Next(v, e) == Some(w)
    ensures EarlyInv(w)
  {
  }

  lemma {:induction false} RunKeepsEarly(states: seq<State>, events: seq<Event>, n: nat)
    requires Run(states, events) && n < |states|
    ensures EarlyInv(states[n])
    decreases n
  {
    hide Next, ShapeInv;
    if n > 0 {
      RunKeepsEarly(states, events, n - 1);
      RunKeepsInv(states, events, n - 1);
      assert Next(states[n - 1], events[n - 1]) == Some(states[n - 1 + 1]);
      StepKeepsEarly(states[n - 1], events[n - 1], states[n]);
    }
  }

  /** No delivery is noted, and nothing recovers. */
  predicate KeepsBook(v: State, w: State) {
    w.serial == v.serial && w.delivered == v.delivered && (Healthy(w) ==> Healthy(v))
  }

  lemma AdvancesKeepBook(v: State)
    ensures KeepsBook(v, OnAdvances(v))
  {
  }

  lemma SettlesKeepBook(v: State, ok: bool, missing: bool)
    ensures OnSettles(v, ok, missing).Some? ==> KeepsBook(v, OnSettles(v, ok, missing).value)
  {
  }

  lemma ChainKeepsBook(v: State, ok: bool, missing: bool)
    ensures OnChainBegins(v).Some? ==> KeepsBook(v, OnChainBegins(v).value)
    ensures OnChainSettles(v, ok, missing).Some? ==> KeepsBook(v, OnChainSettles(v, ok, missing).value)
  {
  }

  lemma OthersKeepBook(v: State, e: Event, w: State)
    requires Next(v, e) == Some(w) && !e.Delivered?
    ensures KeepsBook(v, w)
  {
    hide OnAdvances, OnSettles, OnChainBegins, OnChainSettles;
    match e
    case Advances => AdvancesKeepBook(v);
    case Settles(ok, missing) => SettlesKeepBook(v, ok, missing);
    case ChainBegins => ChainKeepsBook(v, true, true);
    case ChainSettles(ok, missing) => ChainKeepsBook(v, ok, missing);
    case _ =>
  }

  lemma HealthyBefore(v: State, e: Event, w: State)
    requires Next(v, e) == Some(w) && Healthy(w)
    ensures Healthy(v)
  {
    if !e.Delivered? {
      OthersKeepBook(v, e, w);
      hide Next;
    }
  }

  // ---------- The change behind what was reconciled ----------

  /** Change c was settled by the k-th event. */
  ghost predicate SettledAt(states: seq<State>, events: seq<Event>, k: nat, c: Change) {
    k < |events| && |states| == |events| + 1 && SettledBy(states[k], events[k], states[k + 1], c)
  }

  /** What is reconciled of a session was settled at some event, and nothing was sent for it since. */
  lemma {:induction false} LastSettled(states: seq<State>, events: seq<Event>, n: nat, s: SessionId) returns (k: nat, c: Change)
    requires Run(states, events) && n < |states| && Healthy(states[n]) && s in states[n].reconciled
    ensures k < n && SettledAt(states, events, k, c) && c.sessionId == s && c.serial == states[n].reconciled[s]
    ensures |states[k + 1].sent| <= |states[n].sent| && Quiet(states[n].sent, |states[k + 1].sent|, s)
    decreases n
  {
    hide Next, ShapeInv, SettledBy, Outstanding;
    if n == 0 {
      assert false;
    } else {
      var v, e, w := states[n - 1], events[n - 1], states[n];
      assert Next(states[n - 1], events[n - 1]) == Some(states[n - 1 + 1]);
      HealthyBefore(v, e, w);
      RunKeepsInv(states, events, n - 1);
      RunKeepsEarly(states, events, n - 1);
      StepSettles(v, e, w);
      if SettlesNone(v, w) {
        k, c := LastSettled(states, events, n - 1, s);
        StaysQuiet(v, w, |states[k + 1].sent|, s);
      } else {
        var head := Outstanding(v)[0];
        SettlingSends(v, e, w, head);
        if head.sessionId == s {
          k, c := n - 1, head;
        } else {
          k, c := LastSettled(states, events, n - 1, s);
          OthersAreQuiet(v, w, |states[k + 1].sent|, s);
        }
      }
    }
  }

  lemma StaysQuiet(v: State, w: State, from: nat, s: SessionId)
    requires SettlesNone(v, w) && EarlyInv(v) && s in v.reconciled && from <= |v.sent| && Quiet(v.sent, from, s)
    ensures from <= |w.sent| && Quiet(w.sent, from, s)
  {
  }

  lemma OthersAreQuiet(v: State, w: State, from: nat, s: SessionId)
    requires from <= |v.sent| && Quiet(v.sent, from, s)
    requires v.sent <= w.sent && forall i :: |v.sent| <= i < |w.sent| ==> !Changes(w.sent[i], s)
    ensures from <= |w.sent| && Quiet(w.sent, from, s)
  {
  }

  /** Settling a change sends for its own session only. */
  lemma SettlingSends(v: State, e: Event, w: State, c: Change)
    requires SettledBy(v, e, w, c)
    ensures v.sent <= w.sent && w.reconciled == v.reconciled[c.sessionId := c.serial]
    ensures forall i, s :: |v.sent| <= i < |w.sent| && s != c.sessionId ==> !Changes(w.sent[i], s)
  {
  }

  // ---------- The delivery behind a change ----------

  /** The d-th event delivered the change. */
  predicate DeliveredAt(states: seq<State>, events: seq<Event>, d: nat, c: Change) {
    d < |events| && |states| == |events| + 1
    && events[d] == Delivered(c.sessionId, c.deletes) && states[d].serial == c.serial
  }

  /** A change comes onto the line by a delivery, and stays what it was. */
  lemma LineComesFrom(v: State, e: Event, w: State, c: Change)
    requires ShapeInv(v) && Next(v, e) == Some(w) && Healthy(w) && c in Outstanding(w) && c !in Outstanding(v)
    ensures e == Delivered(c.sessionId, c.deletes) && v.serial == c.serial
  {
    hide ShapeInv, Outstanding, Next;
    HealthyBefore(v, e, w);
    if e.Delivered? {
      DeliveredOnly(v, e.s, e.deletes, w, c);
    } else if SettlesChange(v, e) {
      LineSettles(v, e);
      assert false;
    } else {
      LineStays(v, e);
      assert false;
    }
  }

  lemma DeliveredOnly(v: State, s: SessionId, deletes: bool, w: State, c: Change)
    requires ShapeInv(v) && !v.disposed && Next(v, Delivered(s, deletes)) == Some(w) && c in Outstanding(w) && c !in Outstanding(v)
    ensures c == Change(s, deletes, v.serial)
  {
    DeliveredToTheEnd(v, s, deletes);
    BufferKeeps(v.buffered, Change(s, deletes, v.serial));
    hide Buffer, Next;
  }

  lemma {:induction false} ChangeWasDelivered(states: seq<State>, events: seq<Event>, n: nat, c: Change) returns (d: nat)
    requires Run(states, events) && n < |states| && Healthy(states[n]) && c in Outstanding(states[n])
    ensures d < n && DeliveredAt(states, events, d, c)
    decreases n
  {
    hide Next, ShapeInv;
    if n == 0 {
      assert false;
    } else {
      hide Outstanding;
      var v, e, w := states[n - 1], events[n - 1], states[n];
      assert Next(states[n - 1], events[n - 1]) == Some(states[n - 1 + 1]);
      HealthyBefore(v, e, w);
      RunKeepsInv(states, events, n - 1);
      if c in Outstanding(v) {
        d := ChangeWasDelivered(states, events, n - 1, c);
      } else {
        LineComesFrom(v, e, w, c);
        d := n - 1;
      }
    }
  }

  // ---------- Serial numbers ----------

  lemma SerialStep(v: State, e: Event, w: State)
    requires Next(v, e) == Some(w)
    ensures v.serial <= w.serial && (e.Delivered? && !v.disposed ==> v.serial < w.serial)
    ensures forall s :: !(e.Delivered? && e.s == s) ==> (s in w.delivered <==> s in v.delivered) && (s in v.delivered ==> w.delivered[s] == v.delivered[s])
    ensures e.Delivered? && !v.disposed ==> e.s in w.delivered && w.delivered[e.s] == v.serial
  {
    if !e.Delivered? {
      OthersKeepBook(v, e, w);
      hide Next;
    }
  }

  lemma {:induction false} SerialsRise(states: seq<State>, events: seq<Event>, m: nat, n: nat)
    requires Run(states, events) && m <= n < |states|
    ensures states[m].serial <= states[n].serial
    ensures m < n && events[m].Delivered? && !states[m].disposed ==> states[m].serial < states[n].serial
    decreases n
  {
    hide Next;
    if m < n {
      SerialsRise(states, events, m, n - 1);
      assert Next(states[n - 1], events[n - 1]) == Some(states[n - 1 + 1]);
      SerialStep(states[n - 1], events[n - 1], states[n]);
    }
  }

  /** The d-th event is the last delivery for session s before state n. */
  predicate LastDelivery(events: seq<Event>, d: nat, n: nat, s: SessionId) {
    d < n <= |events| && events[d].Delivered? && events[d].s == s
    && forall i :: d < i < n ==> !(events[i].Delivered? && events[i].s == s)
  }

  lemma {:induction false} LastDeliveryIsRecorded(states: seq<State>, events: seq<Event>, d: nat, n: nat, s: SessionId)
    requires Run(states, events) && LastDelivery(events, d, n, s) && Healthy(states[n])
    ensures s in states[n].delivered && states[n].delivered[s] == states[d].serial && Healthy(states[d])
    decreases n
  {
    hide Next;
    var v, e, w := states[n - 1], events[n - 1], states[n];
    assert Next(states[n - 1], events[n - 1]) == Some(states[n - 1 + 1]);
    HealthyBefore(v, e, w);
    SerialStep(v, e, w);
    if d < n - 1 {
      LastDeliveryIsRecorded(states, events, d, n - 1, s);
    }
  }

  lemma {:induction false} HealthyAllAlong(states: seq<State>, events: seq<Event>, m: nat, n: nat)
    requires Run(states, events) && m <= n < |states| && Healthy(states[n])
    ensures Healthy(states[m])
    decreases n
  {
    hide Next;
    if m < n {
      assert Next(states[n - 1], events[n - 1]) == Some(states[n - 1 + 1]);
      HealthyBefore(states[n - 1], events[n - 1], states[n]);
      HealthyAllAlong(states, events, m, n - 1);
    }
  }

  // ---------- The theorem ----------

  /**
   Whenever a source that has not failed and is not closed is at rest, the last change delivered for
   a session was settled by a later event k. That event sent the replacement of its partition, or for
   a deletion its removal unless the partition was found missing; and nothing that changes the
   partition was sent after it.
   */
  lemma LastEffectMatches(states: seq<State>, events: seq<Event>, n: nat, s: SessionId, d: nat) returns (k: nat)
    requires Run(states, events) && n < |states| && Healthy(states[n]) && AtRest(states[n]) && LastDelivery(events, d, n, s)
    ensures d < k < n && (events[k].Settles? || events[k].ChainSettles?) && events[k].ok
    ensures states[k + 1].sent == states[k].sent + (if !events[d].deletes then [Replaced(s)]
                                                    else if events[k].missing then [] else [Deleted(s)])
    ensures |states[k + 1].sent| <= |states[n].sent| && Quiet(states[n].sent, |states[k + 1].sent|, s)
  {
    hide Run, Next, Outstanding, AtRest, Healthy, Quiet;
    LastDeliveryIsRecorded(states, events, d, n, s);
    LastDeliveredIsLastReconciled(states, events, n, s);
    var c: Change;
    k, c := LastSettled(states, events, n, s);
    HealthyAllAlong(states, events, k, n);
    var e := ChangeWasDelivered(states, events, k, c);
    SameDelivery(states, events, d, e, n);
  }

  /** Two deliveries of one number are the same one. */
  lemma SameDelivery(states: seq<State>, events: seq<Event>, d: nat, e: nat, n: nat)
    requires Run(states, events) && d < n < |states| && e < n && Healthy(states[n])
    requires events[d].Delivered? && events[e].Delivered? && states[d].serial == states[e].serial
    ensures d == e
  {
    hide Next;
    HealthyAllAlong(states, events, d, n);
    HealthyAllAlong(states, events, e, n);
    if d < e {
      SerialsRise(states, events, d, e);
    } else if e < d {
      SerialsRise(states, events, e, d);
    }
  }

  // ---------- Failures are declared ----------

  predicate Fell(v: State) {
    v.starter.StartFailed? || v.broken
  }

  /** A source that failed and is not closed has declared it, and has sent nothing since. */
  predicate Declared(v: State) {
    Fell(v) && !v.disposed ==> v.sent != [] && v.sent[|v.sent| - 1] == MarkedFailed && v.phase == Failed
  }

  lemma StepDeclares(v: State, e: Event, w: State)
    requires ShapeInv(v) && Declared(v) && Next(v, e) == Some(w)
    ensures Declared(w)
  {
  }

  /**
   Whenever a start or a live reconciliation has failed and the source is not closed, the last thing
   sent is the declaration of the failure: no partition change and no readiness comes after it.
   */
  lemma {:induction false} FailureIsDeclared(states: seq<State>, events: seq<Event>, n: nat)
    requires Run(states, events) && n < |states|
    ensures Fell(states[n]) && !states[n].disposed ==>
              var sent := states[n].sent; sent != [] && sent[|sent| - 1] == MarkedFailed && states[n].phase == Failed
    decreases n
  {
    hide Next, ShapeInv;
    if n > 0 {
      FailureIsDeclared(states, events, n - 1);
      RunKeepsInv(states, events, n - 1);
      assert Next(states[n - 1], events[n - 1]) == Some(states[n - 1 + 1]);
      StepDeclares(states[n - 1], events[n - 1], states[n]);
    }
  }

  // ---------- A close poisons nothing ----------

  /** start() is reading the durable places of a batch, or replacing the partition of a record. */
  predicate Backfilling(starter: Starter) {
    starter.AwaitingMarks? || starter.ReplacingRecord?
  }

  /** A step of a closed source. */
  ghost predicate StaysClosed(v: State, w: State) {
    && w.disposed && v.sent <= w.sent && (forall i :: |v.sent| <= i < |w.sent| ==> w.sent[i] != MarkedFailed)
    && w.delivered == v.delivered
    && (Backfilling(w.starter) ==> v.starter.AwaitingMarks? || v.starter == w.starter)
  }

  lemma ClosedAdvances(v: State)
    requires v.disposed
    ensures StaysClosed(v, OnAdvances(v))
  {
  }

  lemma ClosedSettles(v: State, ok: bool, missing: bool)
    requires v.disposed && OnSettles(v, ok, missing).Some?
    ensures StaysClosed(v, OnSettles(v, ok, missing).value)
  {
  }

  lemma ClosedChain(v: State, ok: bool, missing: bool)
    requires v.disposed
    ensures OnChainBegins(v).Some? ==> StaysClosed(v, OnChainBegins(v).value)
    ensures OnChainSettles(v, ok, missing).Some? ==> StaysClosed(v, OnChainSettles(v, ok, missing).value)
  {
  }

  lemma ClosedStep(v: State, e: Event, w: State)
    requires v.disposed && Next(v, e) == Some(w)
    ensures StaysClosed(v, w)
  {
    hide OnAdvances, OnSettles, OnChainBegins, OnChainSettles;
    match e
    case Advances => ClosedAdvances(v);
    case Settles(ok, missing) => ClosedSettles(v, ok, missing);
    case ChainBegins => ClosedChain(v, true, true);
    case ChainSettles(ok, missing) => ClosedChain(v, ok, missing);
    case _ =>
  }

  /**
   From the call of close on the source is closed: it accepts no change and declares no failure, so
   the build last committed stays as it is.
   */
  lemma {:induction false} ClosedDeclaresNothing(states: seq<State>, events: seq<Event>, n: nat, m: nat)
    requires Run(states, events) && n < m < |states| && (states[n].disposed || events[n] == CloseCalled)
    ensures states[m].disposed && states[n].sent <= states[m].sent && states[m].delivered == states[n].delivered
    ensures forall i :: |states[n].sent| <= i < |states[m].sent| ==> states[m].sent[i] != MarkedFailed
    decreases m
  {
    hide Next;
    var v, w := states[m - 1], states[m];
    assert Next(states[m - 1], events[m - 1]) == Some(states[m - 1 + 1]);
    if m > n + 1 {
      ClosedDeclaresNothing(states, events, n, m - 1);
    } else {
      ClosingStep(v, events[n], w);
    }
    if v.disposed {
      ClosedStep(v, events[m - 1], w);
    }
  }

  lemma ClosingStep(v: State, e: Event, w: State)
    requires Next(v, e) == Some(w)
    ensures e == CloseCalled ==> w.disposed && w.sent == v.sent && w.delivered == v.delivered
  {
  }

  /** A closed source whose backfill has no call under way begins no further one. */
  lemma {:induction false} ClosedBeginsNoBackfill(states: seq<State>, events: seq<Event>, n: nat, m: nat)
    requires Run(states, events) && n <= m < |states| && states[n].disposed && !Backfilling(states[n].starter)
    ensures states[m].disposed && !Backfilling(states[m].starter)
    decreases m
  {
    hide Next;
    if n < m {
      ClosedBeginsNoBackfill(states, events, n, m - 1);
      assert Next(states[m - 1], events[m - 1]) == Some(states[m - 1 + 1]);
      ClosedStep(states[m - 1], events[m - 1], states[m]);
    }
  }
}
