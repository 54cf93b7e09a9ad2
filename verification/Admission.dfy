/** One model shared by any number of predicting and closing goroutines, as a transition system
    whose steps are the critical sections of `ModelSlots` and the waits between them. Every
    context may end at any point and every engine call may fail or succeed freely, so an
    interleaving is exactly a sequence of enabled events. */
module Admission {
  import opened ModelSlots

  /** A Predict call: queued in a select, chosen to give up, inside the engine, or over. */
  datatype Call = Waiting | Cancelling | Running | Refused(reason: Admission) | GaveUp | Served

  /** A Close call. */
  datatype Closer =
    | Looping
    | OnIdle
    | OnDone(gen: nat)
    | InEngine
    | Unregistering
    | Finishing(ok: bool)
    | Returned(ok: bool)

  /** `enqueued`, `grants`, `dropped` and `engineSuccesses` are history: callers in the order they
      were queued, callers in the order they were handed the slot, callers that left the queue
      ungranted, and engine closes that returned without error. */
  datatype System = System(
    m: Slots<nat>,
    calls: map<nat, Call>,
    closers: map<nat, Closer>,
    enqueued: seq<nat>,
    grants: seq<nat>,
    dropped: set<nat>,
    engineSuccesses: nat)

  datatype Event =
    | Arrive(c: nat)
    | TakeGrant(c: nat)
    | Fire(c: nat)
    | Cancel(c: nat)
    | Release(c: nat)
    | EnterClose(k: nat)
    | LockClose(k: nat, contextDone: bool)
    | WakeIdle(k: nat)
    | WakeDone(k: nat)
    | GiveUp(k: nat)
    | EngineReturns(k: nat, ok: bool)
    | Unregister(k: nat)
    | UnlockClose(k: nat)

  function Init(capacity: nat): System {
    System(Slots(capacity, Open, false, [], {}, false, false, 0, {}), map[], map[], [], [], {}, 0)
  }

  predicate CallIs(s: System, c: nat, phase: Call) {
    c in s.calls && s.calls[c] == phase
  }

  predicate CloserIs(s: System, k: nat, phase: Closer) {
    k in s.closers && s.closers[k] == phase
  }

  predicate Enabled(s: System, e: Event) {
    match e
    case Arrive(c) => c !in s.calls
    case TakeGrant(c) => CallIs(s, c, Waiting) && c in s.m.granted
    case Fire(c) => CallIs(s, c, Waiting)
    case Cancel(c) => CallIs(s, c, Cancelling)
    case Release(c) => CallIs(s, c, Running)
    case EnterClose(k) => k !in s.closers
    case LockClose(k, _) => CloserIs(s, k, Looping)
    case WakeIdle(k) => CloserIs(s, k, OnIdle) && s.m.idleClosed
    case WakeDone(k) => k in s.closers && s.closers[k].OnDone? && s.closers[k].gen in s.m.doneClosed
    case GiveUp(k) => k in s.closers && (s.closers[k].OnIdle? || s.closers[k].OnDone?)
    case EngineReturns(k, _) => CloserIs(s, k, InEngine)
    case Unregister(k) => CloserIs(s, k, Unregistering)
    case UnlockClose(k) => k in s.closers && s.closers[k].Finishing?
  }

  /** Releasing the slot also records who was handed it. */
  function ReleaseSlot(s: System): System {
    s.(m := ModelSlots.Release(s.m),
       grants := if s.m.waiters == [] then s.grants else s.grants + [s.m.waiters[0]])
  }

  function Arriving(s: System, c: nat): System {
    match AdmissionOf(s.m)
    case Admitted => s.(m := Admit(s.m), calls := s.calls[c := Running])
    case Queued => s.(m := Enqueue(s.m, c), calls := s.calls[c := Waiting], enqueued := s.enqueued + [c])
    case refusal => s.(calls := s.calls[c := Refused(refusal)])
  }

  function Cancelled(s: System, c: nat): System {
    if c in s.m.granted then
      ReleaseSlot(s).(calls := s.calls[c := GaveUp])
    else
      s.(m := ModelSlots.Cancel(s.m, c), calls := s.calls[c := GaveUp], dropped := s.dropped + {c})
  }

  function CloserAfter(verdict: CloseVerdict): Closer {
    match verdict
    case AlreadyClosed => Returned(true)
    case ContextDone => Returned(false)
    case AwaitIdle => OnIdle
    case AwaitDone(gen) => OnDone(gen)
    case Start(_) => InEngine
  }

  function Next(s: System, e: Event): System
    requires Enabled(s, e)
  {
    match e
    case Arrive(c) => Arriving(s, c)
    case TakeGrant(c) => s.(calls := s.calls[c := Running])
    case Fire(c) => s.(calls := s.calls[c := Cancelling])
    case Cancel(c) => Cancelled(s, c)
    case Release(c) => ReleaseSlot(s).(calls := s.calls[c := Served])
    case EnterClose(k) => s.(closers := s.closers[k := Looping])
    case LockClose(k, contextDone) =>
      s.(m := CloseLocked(s.m, contextDone),
         closers := s.closers[k := CloserAfter(CloseVerdictOf(s.m, contextDone))])
    case WakeIdle(k) => s.(closers := s.closers[k := Looping])
    case WakeDone(k) => s.(closers := s.closers[k := Looping])
    case GiveUp(k) => s.(closers := s.closers[k := Returned(false)])
    case EngineReturns(k, ok) =>
      s.(closers := s.closers[k := if ok then Unregistering else Finishing(false)],
         engineSuccesses := s.engineSuccesses + if ok then 1 else 0)
    case Unregister(k) => s.(closers := s.closers[k := Finishing(true)])
    case UnlockClose(k) =>
      s.(m := CloseFinished(s.m, s.closers[k].ok),
         closers := s.closers[k := Returned(s.closers[k].ok)])
  }

  ghost predicate Run(s: System, events: seq<Event>, t: System)
    decreases |events|
  {
    if events == [] then s == t
    else Enabled(s, events[0]) && Run(Next(s, events[0]), events[1..], t)
  }

  /** The calls that hold the slot: running ones, and queued ones already handed it. */
  predicate Owns(s: System, c: nat) {
    c in s.calls && (s.calls[c] == Running || (s.calls[c] in {Waiting, Cancelling} && c in s.m.granted))
  }

  function Owners(s: System): set<nat> {
    set c | c in s.calls && Owns(s, c)
  }

  /** The closer that has claimed the engine's close and not yet reported its outcome. */
  function Claimants(s: System): set<nat> {
    set k | k in s.closers && Claims(s, k)
  }

  /** The claimants whose engine close returned without error. */
  predicate EngineDone(s: System, k: nat) {
    CloserIs(s, k, Unregistering) || CloserIs(s, k, Finishing(true))
  }

  ghost predicate QueueInv(s: System) {
    && Distinct(s.m.waiters)
    && (forall c :: c in s.m.waiters ==> c in s.calls && s.calls[c] in {Waiting, Cancelling} && c !in s.m.granted)
    && (forall c :: c in s.calls && s.calls[c] in {Waiting, Cancelling} ==> c in s.m.waiters || c in s.m.granted)
    && s.m.granted <= s.calls.Keys
    && |s.m.waiters| <= s.m.capacity
    && (!s.m.active ==> s.m.waiters == [] && Owners(s) == {})
    && (s.m.active ==> exists c :: Owners(s) == {c})
    && (s.m.phase == Open ==> !s.m.idleClosed)
    && (s.m.phase != Open ==> (s.m.idleClosed <==> Drained(s.m)))
  }

  ghost predicate CloseInv(s: System) {
    && (s.m.phase == Closed ==> Drained(s.m))
    && (!s.m.closeInProgress ==> Claimants(s) == {})
    && (s.m.closeInProgress ==> s.m.phase == Closing && Drained(s.m) && exists k :: Claimants(s) == {k})
    && (s.m.closeInProgress ==> s.m.closeGen !in s.m.doneClosed)
    && (forall g :: g in s.m.doneClosed ==> g <= s.m.closeGen)
    && (forall k :: k in s.closers && (s.closers[k].OnIdle? || s.closers[k].OnDone?) ==> s.m.phase != Open)
    && (forall k :: k in s.closers && s.closers[k].OnDone? ==>
         s.closers[k].gen in s.m.doneClosed || (s.m.closeInProgress && s.closers[k].gen == s.m.closeGen))
    && (s.engineSuccesses == if EngineClosed(s) then 1 else 0)
  }

  ghost predicate EngineClosed(s: System) {
    s.m.phase == Closed || exists k :: EngineDone(s, k)
  }

  function Surviving(s: seq<nat>, dropped: set<nat>): seq<nat> {
    if s == [] then []
    else (if s[0] in dropped then [] else [s[0]]) + Surviving(s[1..], dropped)
  }

  ghost predicate OrderInv(s: System) {
    && Distinct(s.enqueued)
    && (forall c :: c in s.enqueued ==> c in s.calls)
    && (forall c :: c in s.m.granted <==> c in s.grants)
    && s.dropped <= s.calls.Keys
    && s.grants + s.m.waiters == Surviving(s.enqueued, s.dropped)
  }

  ghost predicate Inv(s: System) {
    QueueInv(s) && CloseInv(s) && OrderInv(s)
  }

  lemma InitInv(capacity: nat)
    ensures Inv(Init(capacity))
  {
  }

  // ---- the queue ----

  lemma OwnersUnchanged(s: System, t: System)
    requires forall c :: Owns(s, c) <==> Owns(t, c)
    ensures Owners(s) == Owners(t)
  {
  }

  lemma SoleOwner(s: System, c: nat)
    requires QueueInv(s) && Owns(s, c)
    ensures s.m.active && Owners(s) == {c}
    ensures forall x :: Owns(s, x) ==> x == c
  {
    assert c in Owners(s);
    forall x | Owns(s, x) ensures x == c { assert x in Owners(s); }
  }

  /** Giving the slot up hands it to the head of the queue or frees it. */
  lemma ReleasingKeepsQueue(s: System, c: nat, after: Call)
    requires QueueInv(s) && CloseInv(s) && Owns(s, c) && after in {GaveUp, Served}
    ensures QueueInv(ReleaseSlot(s).(calls := s.calls[c := after]))
  {
    if s.m.waiters == [] { FreeingKeepsQueue(s, c, after); } else { HandingKeepsQueue(s, c, after); }
  }

  lemma FreeingKeepsQueue(s: System, c: nat, after: Call)
    requires QueueInv(s) && CloseInv(s) && Owns(s, c) && after in {GaveUp, Served} && s.m.waiters == []
    ensures QueueInv(ReleaseSlot(s).(calls := s.calls[c := after]))
  {
    SoleOwner(s, c);
    var t := ReleaseSlot(s).(calls := s.calls[c := after]);
    forall x ensures !Owns(t, x) { assert x != c ==> Owns(t, x) == Owns(s, x); }
  }

  lemma HandingKeepsQueue(s: System, c: nat, after: Call)
    requires QueueInv(s) && Owns(s, c) && after in {GaveUp, Served} && s.m.waiters != []
    ensures QueueInv(ReleaseSlot(s).(calls := s.calls[c := after]))
  {
    SoleOwner(s, c);
    var t, head := ReleaseSlot(s).(calls := s.calls[c := after]), s.m.waiters[0];
    assert forall x :: x in s.m.waiters[1..] ==> x in s.m.waiters && x != head;
    assert forall x :: x in s.m.waiters ==> x == head || x in s.m.waiters[1..];
    forall x ensures Owns(t, x) <==> x == head { assert x != c && x != head ==> Owns(t, x) == Owns(s, x); }
    assert Owners(t) == {head};
  }

  lemma LeavingKeepsQueue(s: System, c: nat)
    requires QueueInv(s) && CallIs(s, c, Cancelling) && c !in s.m.granted
    ensures QueueInv(Cancelled(s, c))
    ensures s.m.active && |Cancelled(s, c).m.waiters| == |s.m.waiters| - 1
  {
    WithoutDistinct(s.m.waiters, c);
    OwnersUnchanged(s, Cancelled(s, c));
  }

  lemma ArrivingKeepsQueue(s: System, c: nat)
    requires QueueInv(s) && c !in s.calls
    ensures QueueInv(Arriving(s, c))
  {
    var t := Arriving(s, c);
    match AdmissionOf(s.m)
    case Admitted => assert Owners(t) == {c};
    case _ => OwnersUnchanged(s, t);
  }

  lemma UnlockingKeepsQueue(s: System, k: nat)
    requires QueueInv(s) && CloseInv(s) && Enabled(s, UnlockClose(k))
    ensures QueueInv(Next(s, UnlockClose(k)))
  {
    assert k in Claimants(s);
    OwnersUnchanged(s, Next(s, UnlockClose(k)));
  }

  lemma QueueStep(s: System, e: Event)
    requires QueueInv(s) && CloseInv(s) && Enabled(s, e)
    ensures QueueInv(Next(s, e))
  {
    match e
    case Arrive(c) => ArrivingKeepsQueue(s, c);
    case Cancel(c) =>
      if c in s.m.granted { ReleasingKeepsQueue(s, c, GaveUp); } else { LeavingKeepsQueue(s, c); }
    case Release(c) => ReleasingKeepsQueue(s, c, Served);
    case UnlockClose(k) => UnlockingKeepsQueue(s, k);
    case _ => OwnersUnchanged(s, Next(s, e));
  }

  // ---- closing ----

  predicate Claims(s: System, k: nat) {
    k in s.closers && (s.closers[k] in {InEngine, Unregistering} || s.closers[k].Finishing?)
  }

  lemma ClaimantsUnchanged(s: System, t: System)
    requires forall k :: Claims(s, k) <==> Claims(t, k)
    requires forall k :: Claims(s, k) ==> k in t.closers && s.closers[k] == t.closers[k]
    ensures Claimants(s) == Claimants(t)
    ensures (exists k :: EngineDone(s, k)) == (exists k :: EngineDone(t, k))
  {
    if k :| EngineDone(s, k) { assert Claims(s, k) && EngineDone(t, k); }
    if k :| EngineDone(t, k) { assert Claims(t, k) && EngineDone(s, k); }
  }

  lemma SoleClaimant(s: System, k: nat)
    requires CloseInv(s) && Claims(s, k)
    ensures s.m.closeInProgress && Claimants(s) == {k}
    ensures forall x :: Claims(s, x) ==> x == k
  {
    assert k in Claimants(s);
    forall x | Claims(s, x) ensures x == k { assert x in Claimants(s); }
  }

  lemma OthersKeepClaims(s: System, t: System, k: nat, v: Closer)
    requires t.closers == s.closers[k := v]
    ensures forall x :: x != k ==> Claims(t, x) == Claims(s, x) && EngineDone(t, x) == EngineDone(s, x)
    ensures Claims(t, k) == (v in {InEngine, Unregistering} || v.Finishing?)
    ensures EngineDone(t, k) == (v in {Unregistering, Finishing(true)})
  {
  }

  lemma ReleasingKeepsClose(s: System, c: nat, after: Call)
    requires QueueInv(s) && CloseInv(s) && Owns(s, c)
    ensures CloseInv(ReleaseSlot(s).(calls := s.calls[c := after]))
  {
    SoleOwner(s, c);
    ClaimantsUnchanged(s, ReleaseSlot(s).(calls := s.calls[c := after]));
  }

  lemma LockingKeepsClose(s: System, k: nat, contextDone: bool)
    requires QueueInv(s) && CloseInv(s) && CloserIs(s, k, Looping)
    ensures CloseInv(Next(s, LockClose(k, contextDone)))
  {
    var t := Next(s, LockClose(k, contextDone));
    if CloseVerdictOf(s.m, contextDone).Start? {
      OthersKeepClaims(s, t, k, InEngine);
      forall x ensures !Claims(s, x) { assert Claims(s, x) ==> x in Claimants(s); }
      assert forall x :: Claims(t, x) <==> x == k;
      assert forall x :: EngineDone(s, x) ==> Claims(s, x);
      assert forall x :: !EngineDone(t, x);
      assert Claimants(t) == {k};
    } else {
      ClaimantsUnchanged(s, t);
    }
  }

  lemma EngineReturningKeepsClose(s: System, k: nat, ok: bool)
    requires CloseInv(s) && CloserIs(s, k, InEngine)
    ensures CloseInv(Next(s, EngineReturns(k, ok)))
  {
    var t := Next(s, EngineReturns(k, ok));
    SoleClaimant(s, k);
    OthersKeepClaims(s, t, k, if ok then Unregistering else Finishing(false));
    assert Claimants(t) == {k};
    assert forall x :: EngineDone(s, x) ==> Claims(s, x);
    assert forall x :: EngineDone(t, x) ==> Claims(t, x);
    assert EngineDone(t, k) == ok;
  }

  lemma UnregisteringKeepsClose(s: System, k: nat)
    requires CloseInv(s) && CloserIs(s, k, Unregistering)
    ensures CloseInv(Next(s, Unregister(k)))
  {
    var t := Next(s, Unregister(k));
    SoleClaimant(s, k);
    OthersKeepClaims(s, t, k, Finishing(true));
    assert Claimants(t) == {k};
    assert EngineDone(s, k) && EngineDone(t, k);
  }

  lemma UnlockingKeepsClose(s: System, k: nat)
    requires CloseInv(s) && k in s.closers && s.closers[k].Finishing?
    ensures CloseInv(Next(s, UnlockClose(k)))
  {
    var t := Next(s, UnlockClose(k));
    SoleClaimant(s, k);
    OthersKeepClaims(s, t, k, Returned(s.closers[k].ok));
    assert Claimants(t) == {};
    assert s.closers[k].ok ==> EngineDone(s, k);
    assert forall x :: EngineDone(t, x) ==> Claims(t, x);
    assert forall x :: EngineDone(s, x) ==> Claims(s, x);
  }

  lemma CancellingKeepsClose(s: System, c: nat)
    requires QueueInv(s) && CloseInv(s) && CallIs(s, c, Cancelling)
    ensures CloseInv(Next(s, Cancel(c)))
  {
    if c in s.m.granted {
      ReleasingKeepsClose(s, c, GaveUp);
    } else {
      LeavingKeepsQueue(s, c);
      ClaimantsUnchanged(s, Next(s, Cancel(c)));
    }
  }

  lemma CloseStep(s: System, e: Event)
    requires QueueInv(s) && CloseInv(s) && Enabled(s, e)
    ensures CloseInv(Next(s, e))
  {
    match e
    case LockClose(k, contextDone) => LockingKeepsClose(s, k, contextDone);
    case EngineReturns(k, ok) => EngineReturningKeepsClose(s, k, ok);
    case Unregister(k) => UnregisteringKeepsClose(s, k);
    case UnlockClose(k) => UnlockingKeepsClose(s, k);
    case Cancel(c) => CancellingKeepsClose(s, c);
    case Release(c) => ReleasingKeepsClose(s, c, Served);
    case _ => WaitingKeepsClose(s, e);
  }

  /** Arrivals, waits and wake-ups leave the close protocol where it was. */
  lemma WaitingKeepsClose(s: System, e: Event)
    requires CloseInv(s) && Enabled(s, e)
    requires e.Arrive? || e.TakeGrant? || e.Fire? || e.EnterClose? || e.WakeIdle? || e.WakeDone? || e.GiveUp?
    ensures CloseInv(Next(s, e))
  {
    ClaimantsUnchanged(s, Next(s, e));
  }

  // ---- the order of grants ----

  lemma {:induction false} SurvivingAppend(s: seq<nat>, c: nat, dropped: set<nat>)
    requires c !in dropped
    ensures Surviving(s + [c], dropped) == Surviving(s, dropped) + [c]
  {
    if s != [] {
      assert (s + [c])[1..] == s[1..] + [c];
      SurvivingAppend(s[1..], c, dropped);
    }
  }

  lemma {:induction false} SurvivingMembers(s: seq<nat>, dropped: set<nat>)
    ensures forall c :: c in Surviving(s, dropped) <==> c in s && c !in dropped
  {
    if s != [] {
      assert s == [s[0]] + s[1..];
      SurvivingMembers(s[1..], dropped);
    }
  }

  lemma {:induction false} SurvivingDrop(s: seq<nat>, c: nat, dropped: set<nat>)
    requires Distinct(s) && c !in dropped
    ensures Surviving(s, dropped + {c}) == Without(Surviving(s, dropped), c)
  {
    if s != [] {
      var rest := Surviving(s[1..], dropped);
      SurvivingDrop(s[1..], c, dropped);
      SurvivingMembers(s[1..], dropped);
      if s[0] == c {
        assert c !in s[1..];
        WithoutAbsent(rest, c);
        assert Surviving(s, dropped)[1..] == rest;
      } else if s[0] !in dropped {
        assert Surviving(s, dropped) == [s[0]] + rest;
        assert ([s[0]] + rest)[1..] == rest;
      } else {
        assert Surviving(s, dropped) == rest;
      }
    }
  }

  lemma ReleasingKeepsOrder(s: System, c: nat, after: Call)
    requires QueueInv(s) && OrderInv(s) && c in s.calls
    ensures OrderInv(ReleaseSlot(s).(calls := s.calls[c := after]))
  {
    var t := ReleaseSlot(s).(calls := s.calls[c := after]);
    assert t.grants + t.m.waiters == s.grants + s.m.waiters;
  }

  lemma LeavingKeepsOrder(s: System, c: nat)
    requires QueueInv(s) && OrderInv(s) && CallIs(s, c, Cancelling) && c !in s.m.granted
    ensures OrderInv(Cancelled(s, c))
  {
    SurvivingMembers(s.enqueued, s.dropped);
    assert c in s.grants + s.m.waiters;
    SurvivingDrop(s.enqueued, c, s.dropped);
    WithoutSecond(s.grants, s.m.waiters, c);
  }

  lemma OrderStep(s: System, e: Event)
    requires QueueInv(s) && OrderInv(s) && Enabled(s, e)
    ensures OrderInv(Next(s, e))
  {
    match e
    case Arrive(c) =>
      if AdmissionOf(s.m) == Queued {
        SurvivingAppend(s.enqueued, c, s.dropped);
        assert s.grants + (s.m.waiters + [c]) == (s.grants + s.m.waiters) + [c];
      }
    case Cancel(c) =>
      if c in s.m.granted { ReleasingKeepsOrder(s, c, GaveUp); } else { LeavingKeepsOrder(s, c); }
    case Release(c) => ReleasingKeepsOrder(s, c, Served);
    case _ =>
  }

  lemma InvStep(s: System, e: Event)
    requires Inv(s) && Enabled(s, e)
    ensures Inv(Next(s, e))
  {
    QueueStep(s, e);
    CloseStep(s, e);
    OrderStep(s, e);
  }

  lemma {:induction false} InvRun(s: System, events: seq<Event>, t: System)
    requires Inv(s) && Run(s, events, t)
    ensures Inv(t)
    decreases |events|
  {
    if events != [] {
      InvStep(s, events[0]);
      InvRun(Next(s, events[0]), events[1..], t);
    }
  }
}
