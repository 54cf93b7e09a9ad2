/** What every interleaving of predicting and closing goroutines on one model guarantees. */
module AdmissionTheorems {
  import opened ModelSlots
  import opened Admission

  ghost predicate Reachable(capacity: nat, events: seq<Event>, s: System) {
    Run(Init(capacity), events, s)
  }

  lemma ReachableInv(capacity: nat, events: seq<Event>, s: System)
    requires Reachable(capacity, events, s)
    ensures Inv(s) && s.m.capacity == capacity
  {
    InitInv(capacity);
    InvRun(Init(capacity), events, s);
    CapacityFixed(Init(capacity), events, s);
  }

  lemma {:induction false} CapacityFixed(s: System, events: seq<Event>, t: System)
    requires Run(s, events, t)
    ensures t.m.capacity == s.m.capacity
    decreases |events|
  {
    if events != [] { CapacityFixed(Next(s, events[0]), events[1..], t); }
  }

  // ---- what each step of a call does, over the handle's fields ----

  /** A caller is refused as closed unless the model is open, runs if the slot is free, waits at the
      tail if there is room behind the running one, and is refused as full exactly when there is
      none. A refusal changes nothing else. */
  lemma ArrivalDecided(capacity: nat, events: seq<Event>, s: System, c: nat)
    requires Reachable(capacity, events, s) && Enabled(s, Arrive(c))
    ensures var t := Next(s, Arrive(c)); t.closers == s.closers && t.calls.Keys == s.calls.Keys + {c}
    ensures forall d :: d in s.calls ==> d in Next(s, Arrive(c)).calls && Next(s, Arrive(c)).calls[d] == s.calls[d]
    ensures s.m.phase != Open ==>
      var t := Next(s, Arrive(c)); t.calls[c] == Refused(RefusedClosed) && t.m == s.m
    ensures s.m.phase == Open && !s.m.active ==>
      var t := Next(s, Arrive(c)); t.calls[c] == Running && t.m == s.m.(active := true)
    ensures s.m.phase == Open && s.m.active && |s.m.waiters| < capacity ==>
      var t := Next(s, Arrive(c)); t.calls[c] == Waiting && t.m == s.m.(waiters := s.m.waiters + [c])
    ensures s.m.phase == Open && s.m.active && |s.m.waiters| == capacity ==>
      var t := Next(s, Arrive(c)); t.calls[c] == Refused(RefusedFull) && t.m == s.m
    ensures |s.m.waiters| <= capacity
  {
    ReachableInv(capacity, events, s);
  }

  /** A call that ends hands the slot to the head of the queue; if nobody waits the slot is free, and
      a closing model's idle channel is closed. */
  lemma ReleaseDecided(capacity: nat, events: seq<Event>, s: System, c: nat)
    requires Reachable(capacity, events, s) && Enabled(s, Release(c))
    ensures var t := Next(s, Release(c));
      && t.calls == s.calls[c := Served] && t.closers == s.closers
      && if s.m.waiters != [] then
           t.m == s.m.(waiters := s.m.waiters[1..], granted := s.m.granted + {s.m.waiters[0]})
         else
           t.m == s.m.(active := false, idleClosed := s.m.phase != Open)
  {
    ReachableInv(capacity, events, s);
    SoleOwner(s, c);
  }

  /** A call that gives up ungranted leaves the queue, where the others keep their order, and frees
      nothing: the slot is another call's. */
  lemma CancelDecided(capacity: nat, events: seq<Event>, s: System, c: nat) returns (i: nat)
    requires Reachable(capacity, events, s) && Enabled(s, Cancel(c)) && c !in s.m.granted
    ensures i < |s.m.waiters| && s.m.waiters[i] == c
    ensures var t := Next(s, Cancel(c));
      && t.m == s.m.(waiters := s.m.waiters[..i] + s.m.waiters[i + 1..]) && t.m.active
      && t.calls == s.calls[c := GaveUp] && t.closers == s.closers
  {
    ReachableInv(capacity, events, s);
    assert c in s.m.waiters;
    i :| 0 <= i < |s.m.waiters| && s.m.waiters[i] == c;
    forall j | 0 <= j < i ensures s.m.waiters[..i][j] != c { assert s.m.waiters[j] != s.m.waiters[i]; }
    WithoutAt(s.m.waiters, c, i);
  }

  /** One look of a closer: over if the model is closed, an error if the context has ended, and
      otherwise the model is Closing from now on and the closer waits for the drain, waits for the
      closer at work, or closes the engine itself. */
  lemma LookDecided(capacity: nat, events: seq<Event>, s: System, k: nat, contextDone: bool)
    requires Reachable(capacity, events, s) && Enabled(s, LockClose(k, contextDone))
    ensures var t := Next(s, LockClose(k, contextDone));
      && t.calls == s.calls && t.m.active == s.m.active && t.m.waiters == s.m.waiters && t.m.granted == s.m.granted
      && if s.m.phase == Closed then t.closers[k] == Returned(true) && t.m == s.m
         else if contextDone then t.closers[k] == Returned(false) && t.m == s.m
         else
           && t.m.phase == Closing
           && if s.m.active || s.m.waiters != [] then t.closers[k] == OnIdle && t.m.closeInProgress == s.m.closeInProgress
              else if s.m.closeInProgress then t.closers[k] == OnDone(s.m.closeGen) && t.m.closeInProgress
              else t.closers[k] == InEngine && t.m.closeInProgress && t.m.closeGen == s.m.closeGen + 1
  {
    ReachableInv(capacity, events, s);
  }

  /** The engine's close that succeeded closes the model, one that failed leaves it Closing; either
      wakes those who waited for the outcome. */
  lemma OutcomeDecided(capacity: nat, events: seq<Event>, s: System, k: nat)
    requires Reachable(capacity, events, s) && Enabled(s, UnlockClose(k))
    ensures var t := Next(s, UnlockClose(k));
      && t.calls == s.calls && t.closers == s.closers[k := Returned(s.closers[k].ok)]
      && t.m.phase == (if s.closers[k].ok then Closed else Closing)
      && !t.m.closeInProgress && t.m.closeGen == s.m.closeGen && t.m.doneClosed == s.m.doneClosed + {s.m.closeGen}
      && !t.m.active && t.m.waiters == []
  {
    ReachableInv(capacity, events, s);
    SoleClaimant(s, k);
  }

  /** The slot has exactly one owner while it is taken and none otherwise, at most `capacity`
      callers wait, none waits for a free slot, and a queued caller is either still in the queue
      or holds the slot: no caller is ever forgotten. */
  lemma SlotConservation(capacity: nat, events: seq<Event>, s: System)
    requires Reachable(capacity, events, s)
    ensures |Owners(s)| == if s.m.active then 1 else 0
    ensures |s.m.waiters| <= capacity
    ensures !s.m.active ==> s.m.waiters == []
    ensures forall c :: c in s.calls && s.calls[c] in {Waiting, Cancelling} ==>
      (c in s.m.waiters <==> c !in Owners(s))
  {
    ReachableInv(capacity, events, s);
  }

  /** Callers are handed the slot in the order they queued, leaving out exactly those that gave
      up before being handed it; nobody is handed it twice. */
  lemma GrantsAreFifo(capacity: nat, events: seq<Event>, s: System)
    requires Reachable(capacity, events, s)
    ensures s.grants + s.m.waiters == Surviving(s.enqueued, s.dropped)
    ensures Distinct(s.grants) && s.m.granted == set c | c in s.grants
    ensures forall c :: c in s.dropped ==> c !in s.m.granted
  {
    ReachableInv(capacity, events, s);
    SurvivingDistinct(s.enqueued, s.dropped);
    SurvivingMembers(s.enqueued, s.dropped);
    var order := s.grants + s.m.waiters;
    forall i, j | 0 <= i < j < |s.grants| ensures s.grants[i] != s.grants[j] {
      assert order[i] == s.grants[i] && order[j] == s.grants[j];
    }
    forall c | c in s.dropped ensures c !in s.m.granted { assert c !in order; }
  }

  lemma {:induction false} SurvivingDistinct(s: seq<nat>, dropped: set<nat>)
    requires Distinct(s)
    ensures Distinct(Surviving(s, dropped))
  {
    if s != [] {
      SurvivingDistinct(s[1..], dropped);
      SurvivingMembers(s[1..], dropped);
      assert s[0] !in s[1..];
    }
  }

  /** A caller that gives up while already holding the slot passes it on: to the oldest waiter
      when there is one, and otherwise the slot is free again. */
  lemma RacedGrantIsPassedOn(capacity: nat, events: seq<Event>, s: System, c: nat)
    requires Reachable(capacity, events, s)
    requires Enabled(s, Cancel(c)) && c in s.m.granted
    ensures Owners(s) == {c}
    ensures var t := Next(s, Cancel(c));
      if s.m.waiters == [] then Owners(t) == {} && !t.m.active
      else Owners(t) == {s.m.waiters[0]} && t.m.waiters == s.m.waiters[1..]
  {
    ReachableInv(capacity, events, s);
    SoleOwner(s, c);
    QueueStep(s, Cancel(c));
    if s.m.waiters != [] { SoleOwner(Next(s, Cancel(c)), s.m.waiters[0]); }
  }

  // ---- drain and close ----

  /** While the engine's close is claimed the model is Closing and empty: nobody runs, nobody
      waits; at most one closer claims it, and at most one close has ever succeeded. */
  lemma EngineClosesOnlyWhenDrained(capacity: nat, events: seq<Event>, s: System)
    requires Reachable(capacity, events, s)
    ensures forall k: nat :: Claims(s, k) ==> Claimants(s) == {k} && s.m.phase == Closing && Drained(s.m)
    ensures (exists k :: Claims(s, k)) ==> Owners(s) == {} && forall c :: !CallIs(s, c, Running)
    ensures s.engineSuccesses <= 1
    ensures s.m.phase == Closed ==> s.engineSuccesses == 1
  {
    ReachableInv(capacity, events, s);
    forall k: nat | Claims(s, k) ensures Claimants(s) == {k} { SoleClaimant(s, k); }
    forall c | CallIs(s, c, Running) ensures c in Owners(s) {}
  }

  function Pending(s: System): nat {
    |s.m.waiters| + if s.m.active then 1 else 0
  }

  function SlotSteps(events: seq<Event>): nat {
    if events == [] then 0
    else (if events[0].Cancel? || events[0].Release? then 1 else 0) + SlotSteps(events[1..])
  }

  lemma PendingStep(s: System, e: Event)
    requires Inv(s) && s.m.phase != Open && Enabled(s, e)
    ensures Next(s, e).m.phase != Open
    ensures Pending(Next(s, e)) + SlotSteps([e]) == Pending(s)
  {
    match e
    case Cancel(c) =>
      if c in s.m.granted { SoleOwner(s, c); } else { LeavingKeepsQueue(s, c); }
    case Release(c) => SoleOwner(s, c);
    case UnlockClose(k) => SoleClaimant(s, k);
    case _ =>
  }

  /** From the moment a closing model is drained no call ever runs on it or waits for it again. */
  lemma {:induction false} DrainedForEver(s: System, events: seq<Event>, t: System)
    requires Inv(s) && s.m.phase != Open && Drained(s.m) && Run(s, events, t)
    ensures t.m.phase != Open && Drained(t.m)
    ensures forall c :: c in t.calls ==> t.calls[c] !in {Running, Waiting, Cancelling}
    decreases |events|
  {
    if events == [] {
      forall c | c in s.calls ensures s.calls[c] !in {Running, Waiting, Cancelling} { assert c !in Owners(s); }
    } else {
      InvStep(s, events[0]);
      PendingStep(s, events[0]);
      DrainedForEver(Next(s, events[0]), events[1..], t);
    }
  }

  /** In a closing model the idle channel has been closed exactly when the model is drained. */
  lemma IdleSignalIsExact(capacity: nat, events: seq<Event>, s: System)
    requires Reachable(capacity, events, s)
    ensures s.m.idleClosed <==> s.m.phase != Open && Drained(s.m)
  {
    ReachableInv(capacity, events, s);
  }

  /** Closing is a countdown: every release and every cancellation of a closing model takes
      exactly one call off what is pending, and nothing adds to it. So a closing model is drained
      after exactly as many such steps as calls were pending, in whatever order they happen. */
  lemma {:induction false} DrainCountdown(s: System, events: seq<Event>, t: System)
    requires Inv(s) && s.m.phase != Open && Run(s, events, t)
    ensures Pending(t) + SlotSteps(events) == Pending(s)
    ensures Drained(t.m) <==> SlotSteps(events) == Pending(s)
    decreases |events|
  {
    if events != [] {
      InvStep(s, events[0]);
      PendingStep(s, events[0]);
      DrainCountdown(Next(s, events[0]), events[1..], t);
    }
  }

  /** The drain cannot get stuck: while calls are pending one of them holds the slot and, if it
      has not noticed yet, can take its grant; once it runs or gives up, its slot step is enabled. */
  lemma SomeOwnerCanStep(capacity: nat, events: seq<Event>, s: System) returns (c: nat)
    requires Reachable(capacity, events, s) && Pending(s) > 0
    ensures Owners(s) == {c}
    ensures Enabled(s, Release(c)) || Enabled(s, Cancel(c)) || Enabled(s, TakeGrant(c))
  {
    ReachableInv(capacity, events, s);
    c :| Owners(s) == {c};
    assert c in Owners(s);
  }

  predicate CanFinish(s: System, k: nat) {
    Enabled(s, EngineReturns(k, true)) || Enabled(s, Unregister(k)) || Enabled(s, UnlockClose(k))
  }

  /** No closer sleeps through its wake-up: one waiting for the drain is woken or calls are still
      pending, and one waiting for another closer is woken or that closer can take its next step. */
  lemma NoLostWakeup(capacity: nat, events: seq<Event>, s: System, k: nat)
    requires Reachable(capacity, events, s) && k in s.closers
    ensures s.closers[k].OnIdle? ==> Enabled(s, WakeIdle(k)) || Pending(s) > 0
    ensures s.closers[k].OnDone? ==>
      Enabled(s, WakeDone(k)) || (exists j: nat :: Claims(s, j) && CanFinish(s, j))
  {
    ReachableInv(capacity, events, s);
    if s.closers[k].OnDone? && s.closers[k].gen !in s.m.doneClosed {
      var j :| Claimants(s) == {j};
      assert j in Claimants(s);
      assert Claims(s, j);
    }
  }

  /** A failed engine close leaves the model Closing and lets a later closer claim it again;
      a successful one is final, whatever happens afterwards. */
  lemma {:induction false} ClosedForEver(s: System, events: seq<Event>, t: System)
    requires Inv(s) && s.m.phase == Closed && Run(s, events, t)
    ensures t.m == s.m && t.engineSuccesses == 1
    decreases |events|
  {
    if events != [] {
      InvStep(s, events[0]);
      match events[0] {
        case Cancel(c) =>
          if c in s.m.granted { SoleOwner(s, c); } else { LeavingKeepsQueue(s, c); }
        case Release(c) => SoleOwner(s, c);
        case EngineReturns(k, _) => SoleClaimant(s, k);
        case UnlockClose(k) => SoleClaimant(s, k);
        case _ =>
      }
      ClosedForEver(Next(s, events[0]), events[1..], t);
    }
  }

  lemma FailedCloseCanBeRetried(capacity: nat, events: seq<Event>, s: System, k: nat, j: nat)
    requires Reachable(capacity, events, s) && CloserIs(s, k, Finishing(false)) && CloserIs(s, j, Looping)
    ensures var t := Next(s, UnlockClose(k));
      && t.m.phase == Closing && t.closers[k] == Returned(false)
      && Enabled(t, LockClose(j, false)) && CloserIs(Next(t, LockClose(j, false)), j, InEngine)
  {
    ReachableInv(capacity, events, s);
    SoleClaimant(s, k);
  }

  /** The step makes this closer return an error. */
  predicate ReturnsError(s: System, e: Event, k: nat)
    requires Enabled(s, e)
  {
    (e.LockClose? || e.GiveUp? || e.UnlockClose?) && e.k == k && CloserIs(Next(s, e), k, Returned(false))
  }

  /** The closer has looked at the model's state before. */
  predicate Looked(events: seq<Event>, k: nat) {
    exists i :: 0 <= i < |events| && events[i].LockClose? && events[i].k == k
  }

  lemma OutOfOpenStep(s: System, e: Event)
    requires Inv(s) && Enabled(s, e) && s.m.phase != Open
    ensures Next(s, e).m.phase != Open
  {
    PendingStep(s, e);
  }

  lemma {:induction false} OutOfOpenForEver(s: System, events: seq<Event>, t: System)
    requires Inv(s) && s.m.phase != Open && Run(s, events, t)
    ensures t.m.phase != Open
    decreases |events|
  {
    if events != [] {
      InvStep(s, events[0]);
      OutOfOpenStep(s, events[0]);
      OutOfOpenForEver(Next(s, events[0]), events[1..], t);
    }
  }

  /** A closer's call is over once it has returned. */
  lemma {:induction false} ReturnedForEver(s: System, events: seq<Event>, t: System, k: nat, ok: bool)
    requires CloserIs(s, k, Returned(ok)) && Run(s, events, t)
    ensures CloserIs(t, k, Returned(ok))
    decreases |events|
  {
    if events != [] { ReturnedForEver(Next(s, events[0]), events[1..], t, k, ok); }
  }

  /** Once a close has looked with a live context the model is never open again. */
  lemma {:induction false} LiveLookEndsOpen(s: System, events: seq<Event>, t: System, k: nat)
    requires Inv(s) && Run(s, events, t) && LockClose(k, false) in events
    ensures t.m.phase != Open
    decreases |events|
  {
    var next := Next(s, events[0]);
    InvStep(s, events[0]);
    if events[0] == LockClose(k, false) {
      OutOfOpenForEver(next, events[1..], t);
    } else {
      assert LockClose(k, false) in events[1..];
      LiveLookEndsOpen(next, events[1..], t, k);
    }
  }

  /** While the model is open, a closer that has looked has returned an error. */
  lemma {:induction false} LookedInOpenHasReturned(s: System, events: seq<Event>, t: System, k: nat)
    requires Inv(s) && Run(s, events, t) && Looked(events, k) && t.m.phase == Open
    ensures CloserIs(t, k, Returned(false))
    decreases |events|
  {
    var next := Next(s, events[0]);
    InvStep(s, events[0]);
    if events[0].LockClose? && events[0].k == k {
      if next.m.phase != Open { OutOfOpenForEver(next, events[1..], t); }
      ReturnedForEver(next, events[1..], t, k, false);
    } else {
      var i :| 0 <= i < |events| && events[i].LockClose? && events[i].k == k;
      assert events[1..][i - 1] == events[i];
      LookedInOpenHasReturned(next, events[1..], t, k);
    }
  }

  /** Of a whole Close call that returns an error: the model is left open if and only if the first
      time the call looked, the model was open and its context had already ended. In every other case
      it is left Closing, as documented, unless another closer has closed it by then. */
  lemma FailedCloseLeavesOpenExactly(capacity: nat, events: seq<Event>, s: System, e: Event, k: nat)
    requires Reachable(capacity, events, s) && Enabled(s, e) && ReturnsError(s, e, k)
    ensures Next(s, e).m.phase == Open <==> e == LockClose(k, true) && !Looked(events, k) && s.m.phase == Open
    ensures Next(s, e).m.phase == Closed ==> s.m.phase == Closed
  {
    ReachableInv(capacity, events, s);
    InitInv(capacity);
    ErrorKeepsPhase(s, e, k);
    if s.m.phase == Open && Looked(events, k) { LookedInOpenHasReturned(Init(capacity), events, s, k); }
  }

  lemma ErrorKeepsPhase(s: System, e: Event, k: nat)
    requires Inv(s) && Enabled(s, e) && ReturnsError(s, e, k)
    ensures Next(s, e).m.phase == s.m.phase
    ensures s.m.phase == Open ==> e == LockClose(k, true) && CloserIs(s, k, Looping)
  {
    if e.UnlockClose? { SoleClaimant(s, k); }
  }

  /** It happens: the documented state after a failed close is Closing, and here it is Open. */
  lemma EndedContextLeavesModelOpen(capacity: nat)
    ensures var s := Next(Init(capacity), EnterClose(0));
      && Reachable(capacity, [EnterClose(0)], s) && ReturnsError(s, LockClose(0, true), 0)
      && Next(s, LockClose(0, true)).m.phase == Open
  {
    var s := Next(Init(capacity), EnterClose(0));
    assert Run(s, [EnterClose(0)][1..], s);
  }
}
