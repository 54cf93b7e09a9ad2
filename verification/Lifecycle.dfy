/** A runtime and all the models it ever returned, run together: opens, predictions, model
    closes and runtime closes interleave freely, and each native call succeeds or fails freely. */
module Lifecycle {
  import opened ModelSlots
  import opened RuntimeSlots
  import A = Admission

  datatype Opening = InFlight | Refused | Over(outcome: OpenOutcome)

  datatype RuntimeCloser = Looping | OnDone(gen: nat) | InEngine | Finishing(ok: bool) | Returned(ok: bool) | StillOpen

  /** `systems` holds every model ever returned to a caller, under its identity. */
  datatype World = World(
    rt: Runtime<nat>,
    systems: map<nat, A.System>,
    opens: map<nat, Opening>,
    closers: map<nat, RuntimeCloser>,
    engineSuccesses: nat)

  datatype Event =
    | BeginOpen(o: nat)
    | FinishOpen(o: nat, engine: EngineOpen, id: nat, capacity: nat)
    | OfModel(id: nat, step: A.Event)
    | EnterClose(k: nat)
    | LockClose(k: nat, contextDone: bool)
    | Wake(k: nat)
    | GiveUp(k: nat)
    | EngineReturns(k: nat, ok: bool)
    | UnlockClose(k: nat)

  const START := World(Runtime(Open, 0, {}, false, 0, {}), map[], map[], map[], 0)

  predicate Enabled(w: World, e: Event) {
    match e
    case BeginOpen(o) => o !in w.opens
    case FinishOpen(o, _, id, _) => o in w.opens && w.opens[o] == InFlight && id !in w.systems
    case OfModel(id, step) => id in w.systems && A.Enabled(w.systems[id], step)
    case EnterClose(k) => k !in w.closers
    case LockClose(k, _) => k in w.closers && w.closers[k] == Looping
    case Wake(k) => k in w.closers && w.closers[k].OnDone? && w.closers[k].gen in w.rt.doneClosed
    case GiveUp(k) => k in w.closers && w.closers[k].OnDone?
    case EngineReturns(k, _) => k in w.closers && w.closers[k] == InEngine
    case UnlockClose(k) => k in w.closers && w.closers[k].Finishing?
  }

  function CloserAfter(verdict: RuntimeVerdict): RuntimeCloser {
    match verdict
    case AlreadyClosed => Returned(true)
    case ContextDone => Returned(false)
    case ModelsOpen => StillOpen
    case AwaitDone(gen) => OnDone(gen)
    case Start(_) => InEngine
  }

  function Finished(w: World, o: nat, engine: EngineOpen, id: nat, capacity: nat): World {
    var outcome := OpenOutcomeOf(w.rt, engine);
    var ended := w.(rt := OpenEnded(w.rt), opens := w.opens[o := Over(outcome)]);
    if outcome == Opened then
      ended.(rt := Registered(ended.rt, id), systems := w.systems[id := A.Init(capacity)])
    else
      ended
  }

  function Next(w: World, e: Event): World
    requires Enabled(w, e)
  {
    match e
    case BeginOpen(o) =>
      w.(rt := OpenBegun(w.rt), opens := w.opens[o := if w.rt.phase == Open then InFlight else Refused])
    case FinishOpen(o, engine, id, capacity) => Finished(w, o, engine, id, capacity)
    case OfModel(id, step) =>
      w.(systems := w.systems[id := A.Next(w.systems[id], step)],
         rt := if step.Unregister? then Unregistered(w.rt, id) else w.rt)
    case EnterClose(k) => w.(closers := w.closers[k := Looping])
    case LockClose(k, contextDone) =>
      w.(rt := RuntimeCloseLocked(w.rt, contextDone),
         closers := w.closers[k := CloserAfter(RuntimeVerdictOf(w.rt, contextDone))])
    case Wake(k) => w.(closers := w.closers[k := Looping])
    case GiveUp(k) => w.(closers := w.closers[k := Returned(false)])
    case EngineReturns(k, ok) =>
      w.(closers := w.closers[k := Finishing(ok)], engineSuccesses := w.engineSuccesses + if ok then 1 else 0)
    case UnlockClose(k) =>
      w.(rt := RuntimeCloseFinished(w.rt, w.closers[k].ok),
         closers := w.closers[k := Returned(w.closers[k].ok)])
  }

  ghost predicate Run(w: World, events: seq<Event>, v: World)
    decreases |events|
  {
    if events == [] then w == v
    else Enabled(w, events[0]) && Run(Next(w, events[0]), events[1..], v)
  }

  function OpensInFlight(w: World): set<nat> {
    set o | o in w.opens && w.opens[o] == InFlight
  }

  predicate Claims(w: World, k: nat) {
    k in w.closers && (w.closers[k] == InEngine || w.closers[k].Finishing?)
  }

  function Claimants(w: World): set<nat> {
    set k | k in w.closers && Claims(w, k)
  }

  ghost predicate OpenInv(w: World) {
    && w.rt.opening == |OpensInFlight(w)|
    && (w.rt.opening > 0 ==> w.rt.phase == Open)
    && (w.rt.phase != Open ==> w.rt.models == {})
    && w.rt.models <= w.systems.Keys
  }

  /** Every model that has left the registry has had its engine closed. */
  ghost predicate AllClosed(models: set<nat>, systems: map<nat, A.System>) {
    forall id :: id in systems && id !in models ==> systems[id].engineSuccesses == 1
  }

  ghost predicate ModelsInv(w: World) {
    && (forall id :: id in w.systems ==> A.Inv(w.systems[id]))
    && AllClosed(w.rt.models, w.systems)
  }

  ghost predicate CloserInv(w: World) {
    && (!w.rt.closeInProgress ==> Claimants(w) == {})
    && (w.rt.closeInProgress ==> w.rt.phase == Closing && exists k :: Claimants(w) == {k})
    && (w.rt.closeInProgress ==> w.rt.closeGen !in w.rt.doneClosed)
    && (forall g :: g in w.rt.doneClosed ==> g <= w.rt.closeGen)
    && (forall k :: k in w.closers && w.closers[k].OnDone? ==>
         w.closers[k].gen in w.rt.doneClosed || (w.rt.closeInProgress && w.closers[k].gen == w.rt.closeGen))
    && (w.engineSuccesses == if EngineClosed(w) then 1 else 0)
  }

  ghost predicate EngineClosed(w: World) {
    w.rt.phase == Closed || exists k :: k in w.closers && w.closers[k] == Finishing(true)
  }

  ghost predicate Inv(w: World) {
    OpenInv(w) && ModelsInv(w) && CloserInv(w)
  }

  lemma SoleClaimant(w: World, k: nat)
    requires CloserInv(w) && Claims(w, k)
    ensures w.rt.closeInProgress && Claimants(w) == {k}
    ensures forall x :: Claims(w, x) ==> x == k
  {
    assert k in Claimants(w);
    forall x | Claims(w, x) ensures x == k { assert x in Claimants(w); }
  }

  lemma BeginningKeepsOpens(w: World, o: nat)
    requires OpenInv(w) && Enabled(w, BeginOpen(o))
    ensures OpenInv(Next(w, BeginOpen(o)))
  {
    var v := Next(w, BeginOpen(o));
    assert o !in OpensInFlight(w);
    if w.rt.phase == Open { assert OpensInFlight(v) == OpensInFlight(w) + {o}; }
    else { assert OpensInFlight(v) == OpensInFlight(w); }
  }

  lemma FinishingKeepsOpens(w: World, o: nat, engine: EngineOpen, id: nat, capacity: nat)
    requires OpenInv(w) && Enabled(w, FinishOpen(o, engine, id, capacity))
    ensures OpenInv(Next(w, FinishOpen(o, engine, id, capacity)))
  {
    var v := Next(w, FinishOpen(o, engine, id, capacity));
    assert o in OpensInFlight(w);
    assert OpensInFlight(v) == OpensInFlight(w) - {o};
  }

  lemma OpenStep(w: World, e: Event)
    requires OpenInv(w) && CloserInv(w) && Enabled(w, e)
    ensures OpenInv(Next(w, e))
  {
    match e
    case BeginOpen(o) => BeginningKeepsOpens(w, o);
    case FinishOpen(o, engine, id, capacity) => FinishingKeepsOpens(w, o, engine, id, capacity);
    case UnlockClose(k) => SoleClaimant(w, k);
    case _ =>
  }

  lemma ModelsStep(w: World, e: Event)
    requires OpenInv(w) && ModelsInv(w) && Enabled(w, e)
    ensures ModelsInv(Next(w, e))
  {
    match e
    case FinishOpen(o, engine, id, capacity) => ReturningKeepsModels(w, o, engine, id, capacity);
    case OfModel(id, step) => SteppingKeepsModels(w, id, step);
    case _ => assert Next(w, e).systems == w.systems && Next(w, e).rt.models == w.rt.models;
  }

  lemma ReturningKeepsModels(w: World, o: nat, engine: EngineOpen, id: nat, capacity: nat)
    requires ModelsInv(w) && Enabled(w, FinishOpen(o, engine, id, capacity))
    ensures ModelsInv(Next(w, FinishOpen(o, engine, id, capacity)))
  {
    A.InitInv(capacity);
  }

  lemma SteppingKeepsModels(w: World, id: nat, step: A.Event)
    requires ModelsInv(w) && Enabled(w, OfModel(id, step))
    ensures ModelsInv(Next(w, OfModel(id, step)))
  {
    var s, v := w.systems[id], Next(w, OfModel(id, step));
    A.InvStep(s, step);
    SuccessesOnlyGrow(s, step);
    assert v.systems == w.systems[id := A.Next(s, step)];
    StepKeepsModels(w.rt.models, w.systems, v.rt.models, id, A.Next(s, step));
  }

  lemma StepKeepsModels(models: set<nat>, systems: map<nat, A.System>, after: set<nat>, id: nat, t: A.System)
    requires AllClosed(models, systems) && id in systems
    requires after == models || after == models - {id}
    requires id !in after ==> t.engineSuccesses == 1
    ensures AllClosed(after, systems[id := t])
  {}

  lemma SuccessesOnlyGrow(s: A.System, step: A.Event)
    requires A.Inv(s) && A.Enabled(s, step)
    ensures s.engineSuccesses == 1 ==> A.Next(s, step).engineSuccesses == 1
    ensures step.Unregister? ==> A.Next(s, step).engineSuccesses == 1
  {
    A.InvStep(s, step);
    if step.Unregister? { assert A.EngineDone(s, step.k); }
  }

  lemma OthersKeepClaims(w: World, v: World, k: nat, c: RuntimeCloser)
    requires v.closers == w.closers[k := c]
    ensures forall x :: x != k ==> Claims(v, x) == Claims(w, x)
    ensures Claims(v, k) == (c == InEngine || c.Finishing?)
  {
  }

  lemma LockingKeepsClosers(w: World, k: nat, contextDone: bool)
    requires CloserInv(w) && Enabled(w, LockClose(k, contextDone))
    ensures CloserInv(Next(w, LockClose(k, contextDone)))
  {
    var v := Next(w, LockClose(k, contextDone));
    var c := CloserAfter(RuntimeVerdictOf(w.rt, contextDone));
    OthersKeepClaims(w, v, k, c);
    if c == InEngine {
      forall x ensures !Claims(w, x) { assert Claims(w, x) ==> x in Claimants(w); }
      assert Claimants(v) == {k};
      assert forall x :: x in v.closers && v.closers[x] == Finishing(true) ==> Claims(v, x);
      assert forall x :: x in w.closers && w.closers[x] == Finishing(true) ==> Claims(w, x);
    } else {
      assert Claimants(v) == Claimants(w);
      FinishingUnchanged(w, v, k);
    }
  }

  lemma ReportingKeepsClosers(w: World, k: nat, ok: bool)
    requires CloserInv(w) && Enabled(w, EngineReturns(k, ok))
    ensures CloserInv(Next(w, EngineReturns(k, ok)))
  {
    var v := Next(w, EngineReturns(k, ok));
    SoleClaimant(w, k);
    OthersKeepClaims(w, v, k, Finishing(ok));
    assert Claimants(v) == {k};
    assert forall x :: x in v.closers && v.closers[x] == Finishing(true) ==> Claims(v, x);
    assert forall x :: x in w.closers && w.closers[x] == Finishing(true) ==> Claims(w, x);
    assert v.closers[k] == Finishing(ok);
  }

  lemma UnlockingKeepsClosers(w: World, k: nat)
    requires CloserInv(w) && Enabled(w, UnlockClose(k))
    ensures CloserInv(Next(w, UnlockClose(k)))
  {
    var v := Next(w, UnlockClose(k));
    SoleClaimant(w, k);
    OthersKeepClaims(w, v, k, Returned(w.closers[k].ok));
    assert Claimants(v) == {};
    assert forall x :: x in v.closers && v.closers[x] == Finishing(true) ==> Claims(v, x);
    assert forall x :: x in w.closers && w.closers[x] == Finishing(true) ==> Claims(w, x);
  }

  /** A closer that starts, wakes or gives up claims nothing before or after. */
  lemma IdlingKeepsClosers(w: World, k: nat, c: RuntimeCloser)
    requires CloserInv(w) && c in {Looping, Returned(false)}
    requires k in w.closers ==> w.closers[k].OnDone?
    ensures CloserInv(w.(closers := w.closers[k := c]))
  {
    var v := w.(closers := w.closers[k := c]);
    OthersKeepClaims(w, v, k, c);
    assert Claimants(v) == Claimants(w);
    FinishingUnchanged(w, v, k);
  }

  lemma CloserStep(w: World, e: Event)
    requires CloserInv(w) && Enabled(w, e)
    ensures CloserInv(Next(w, e))
  {
    match e
    case LockClose(k, contextDone) => LockingKeepsClosers(w, k, contextDone);
    case EngineReturns(k, ok) => ReportingKeepsClosers(w, k, ok);
    case UnlockClose(k) => UnlockingKeepsClosers(w, k);
    case EnterClose(k) => IdlingKeepsClosers(w, k, Looping);
    case Wake(k) => IdlingKeepsClosers(w, k, Looping);
    case GiveUp(k) => IdlingKeepsClosers(w, k, Returned(false));
    case _ => assert Claimants(Next(w, e)) == Claimants(w);
  }

  lemma FinishingUnchanged(w: World, v: World, k: nat)
    requires k in v.closers && v.closers == w.closers[k := v.closers[k]]
    requires !v.closers[k].Finishing? && (k in w.closers ==> !w.closers[k].Finishing?)
    ensures (exists x :: x in v.closers && v.closers[x] == Finishing(true))
        <==> (exists x :: x in w.closers && w.closers[x] == Finishing(true))
  {
    if x :| x in v.closers && v.closers[x] == Finishing(true) { assert w.closers[x] == Finishing(true); }
    if x :| x in w.closers && w.closers[x] == Finishing(true) { assert v.closers[x] == Finishing(true); }
  }

  lemma InvStep(w: World, e: Event)
    requires Inv(w) && Enabled(w, e)
    ensures Inv(Next(w, e))
  {
    OpenStep(w, e);
    ModelsStep(w, e);
    CloserStep(w, e);
  }

  lemma {:induction false} InvRun(w: World, events: seq<Event>, v: World)
    requires Inv(w) && Run(w, events, v)
    ensures Inv(v)
    decreases |events|
  {
    if events != [] {
      InvStep(w, events[0]);
      InvRun(Next(w, events[0]), events[1..], v);
    }
  }

  function Projected(events: seq<Event>, id: nat): seq<A.Event> {
    if events == [] then []
    else (if events[0].OfModel? && events[0].id == id then [events[0].step] else []) + Projected(events[1..], id)
  }

  /** Seen from one of its models, a run of the whole world is a run of that model alone: its own
      steps, in order. So everything proved about a single model holds of every model here. */
  lemma {:induction false} ModelSeesItsOwnRun(w: World, events: seq<Event>, v: World, id: nat)
    requires Run(w, events, v) && id in w.systems
    ensures id in v.systems && A.Run(w.systems[id], Projected(events, id), v.systems[id])
    decreases |events|
  {
    if events != [] {
      var rest := Projected(events[1..], id);
      ModelSeesItsOwnRun(Next(w, events[0]), events[1..], v, id);
      if events[0].OfModel? && events[0].id == id {
        assert ([events[0].step] + rest)[1..] == rest;
      } else {
        assert Projected(events, id) == rest;
      }
    }
  }

  lemma {:induction false} EveryModelIsReachable(w: World, events: seq<Event>, v: World, id: nat)
      returns (capacity: nat, steps: seq<A.Event>)
    requires Run(w, events, v) && id in v.systems && id !in w.systems
    ensures A.Run(A.Init(capacity), steps, v.systems[id])
    decreases |events|
  {
    var next := Next(w, events[0]);
    if id in next.systems {
      capacity, steps := events[0].capacity, Projected(events[1..], id);
      ModelSeesItsOwnRun(next, events[1..], v, id);
    } else {
      capacity, steps := EveryModelIsReachable(next, events[1..], v, id);
    }
  }

  // ---- what each step of the runtime does, over its fields ----

  /** An open is let in exactly while the runtime is open, and is then counted. */
  lemma BeginDecided(w: World, o: nat)
    requires Enabled(w, BeginOpen(o))
    ensures var v := Next(w, BeginOpen(o));
      && v.systems == w.systems && v.closers == w.closers
      && if w.rt.phase == Open then v.opens == w.opens[o := InFlight] && v.rt == w.rt.(opening := w.rt.opening + 1)
         else v.opens == w.opens[o := Refused] && v.rt == w.rt
  {}

  /** An open that was let in ends as the native side answers: an error, a nil model, or a model that
      is new, idle, registered and returned. */
  lemma FinishDecided(events: seq<Event>, w: World, o: nat, engine: EngineOpen, id: nat, capacity: nat)
    requires Run(START, events, w) && Enabled(w, FinishOpen(o, engine, id, capacity))
    ensures FinishesAs(w, Next(w, FinishOpen(o, engine, id, capacity)), o, engine, id, capacity) && id !in w.rt.models
  {
    InvRun(START, events, w);
    assert o in OpensInFlight(w);
    FinishInOpen(w, o, engine, id, capacity);
  }

  ghost predicate FinishesAs(w: World, v: World, o: nat, engine: EngineOpen, id: nat, capacity: nat) {
    && v.rt.opening == w.rt.opening - 1 && v.rt.phase == Open && v.closers == w.closers
    && match engine
       case EngineError => v.opens == w.opens[o := Over(Failed)] && v.systems == w.systems && v.rt.models == w.rt.models
       case NilEngine => v.opens == w.opens[o := Over(ReturnedNil)] && v.systems == w.systems && v.rt.models == w.rt.models
       case Engine =>
         && v.opens == w.opens[o := Over(Opened)] && v.rt.models == w.rt.models + {id}
         && id in v.systems && v.systems == w.systems[id := v.systems[id]]
         && v.systems[id].m == Slots(capacity, Open, false, [], {}, false, false, 0, {}) && v.systems[id].calls == map[]
  }

  lemma FinishInOpen(w: World, o: nat, engine: EngineOpen, id: nat, capacity: nat)
    requires Enabled(w, FinishOpen(o, engine, id, capacity)) && w.rt.phase == Open
    ensures FinishesAs(w, Next(w, FinishOpen(o, engine, id, capacity)), o, engine, id, capacity)
  {}

  /** One look of a runtime's closer. */
  lemma LookDecided(w: World, k: nat, contextDone: bool)
    requires Enabled(w, LockClose(k, contextDone))
    ensures var v, rt := Next(w, LockClose(k, contextDone)), w.rt;
      && v.systems == w.systems && v.opens == w.opens && v.rt.opening == rt.opening && v.rt.models == rt.models
      && if rt.phase == Closed then v.closers[k] == Returned(true) && v.rt == rt
         else if contextDone then v.closers[k] == Returned(false) && v.rt == rt
         else if rt.phase == Open && (rt.opening > 0 || rt.models != {}) then v.closers[k] == StillOpen && v.rt == rt
         else if rt.closeInProgress then v.closers[k] == OnDone(rt.closeGen) && v.rt == rt.(phase := Closing)
         else v.closers[k] == InEngine && v.rt == rt.(phase := Closing, closeInProgress := true, closeGen := rt.closeGen + 1)
  {}

  /** The runtime is closed if its engine's close succeeded, and Closing otherwise. */
  lemma OutcomeDecided(events: seq<Event>, w: World, k: nat)
    requires Run(START, events, w) && Enabled(w, UnlockClose(k))
    ensures var v := Next(w, UnlockClose(k));
      && v.rt.phase == (if w.closers[k].ok then Closed else Closing) && !v.rt.closeInProgress
      && v.rt.doneClosed == w.rt.doneClosed + {w.rt.closeGen} && v.closers == w.closers[k := Returned(w.closers[k].ok)]
      && v.systems == w.systems && v.opens == w.opens
  {
    InvRun(START, events, w);
    SoleClaimant(w, k);
  }

  /** A model's steps are its own; leaving the registry takes out that model alone. */
  lemma ModelStepDecided(w: World, id: nat, step: A.Event)
    requires Enabled(w, OfModel(id, step))
    ensures var v := Next(w, OfModel(id, step));
      && v.systems == w.systems[id := A.Next(w.systems[id], step)] && v.opens == w.opens && v.closers == w.closers
      && v.rt == w.rt.(models := if step.Unregister? then w.rt.models - {id} else w.rt.models)
  {}

  // ---- what callers rely on ----

  /** An open in flight keeps its runtime open, so the branch that discards a freshly opened
      model because the runtime stopped meanwhile is never taken. */
  lemma OpenNeverFindsRuntimeStopped(events: seq<Event>, w: World, o: nat, engine: EngineOpen)
    requires Run(START, events, w) && o in w.opens && w.opens[o] == InFlight
    ensures w.rt.phase == Open && OpenOutcomeOf(w.rt, engine) != Stopped
  {
    InvRun(START, events, w);
    assert o in OpensInFlight(w);
  }

  /** When a closer is about to close the runtime's engine, is inside that call, or the runtime
      is already closed, every model ever returned has had a successful engine close: no call
      runs on any of them, none is queued, and no open is in flight. */
  lemma RuntimeEngineClosesLast(events: seq<Event>, w: World)
    requires Run(START, events, w) && w.rt.phase != Open
    ensures forall id :: id in w.systems ==>
      && w.systems[id].engineSuccesses == 1
      && A.Owners(w.systems[id]) == {} && w.systems[id].m.waiters == []
    ensures OpensInFlight(w) == {} && w.rt.models == {}
    ensures |Claimants(w)| <= 1 && w.engineSuccesses <= 1
    ensures w.rt.phase == Closed ==> w.engineSuccesses == 1
  {
    InvRun(START, events, w);
    forall id | id in w.systems ensures A.Owners(w.systems[id]) == {} && w.systems[id].m.waiters == [] {
      ClosedMeansEmpty(w.systems[id]);
    }
  }

  lemma ClosedMeansEmpty(s: A.System)
    requires A.Inv(s) && s.engineSuccesses == 1
    ensures A.Owners(s) == {} && s.m.waiters == []
  {
    assert A.EngineClosed(s);
    if s.m.phase != Closed {
      var k :| A.EngineDone(s, k);
      A.SoleClaimant(s, k);
    }
  }

  /** A model that has left its runtime's registry has had its engine closed. */
  lemma UnregisteredMeansClosed(events: seq<Event>, w: World, id: nat)
    requires Run(START, events, w) && id in w.systems && id !in w.rt.models
    ensures A.EngineClosed(w.systems[id])
  {
    InvRun(START, events, w);
  }

  lemma NotOpenStep(w: World, e: Event)
    requires OpenInv(w) && CloserInv(w) && w.rt.phase != Open && Enabled(w, e)
    ensures Next(w, e).rt.phase != Open && Next(w, e).systems.Keys == w.systems.Keys
  {
    assert forall o :: o in w.opens && w.opens[o] == InFlight ==> o in OpensInFlight(w);
    match e
    case UnlockClose(k) => SoleClaimant(w, k);
    case _ =>
  }

  /** Once a runtime has left Open it stays out of it, and it never returns a model again. */
  lemma {:induction false} NoModelAfterClosing(w: World, events: seq<Event>, v: World)
    requires OpenInv(w) && CloserInv(w) && w.rt.phase != Open && Run(w, events, v)
    ensures v.rt.phase != Open && v.rt.models == {} && v.rt.opening == 0
    ensures v.systems.Keys == w.systems.Keys
    decreases |events|
  {
    if events != [] {
      OpenStep(w, events[0]);
      CloserStep(w, events[0]);
      NotOpenStep(w, events[0]);
      NoModelAfterClosing(Next(w, events[0]), events[1..], v);
    }
  }

  /** An open runtime turns a close away exactly while an open is in flight or some model it
      returned has not been unregistered yet. */
  lemma RefusedExactlyWhileInUse(events: seq<Event>, w: World)
    requires Run(START, events, w) && w.rt.phase == Open
    ensures RuntimeVerdictOf(w.rt, false) == ModelsOpen
      <==> OpensInFlight(w) != {} || exists id :: id in w.systems && id in w.rt.models
  {
    InvRun(START, events, w);
    if w.rt.models != {} {
      var id :| id in w.rt.models;
      assert id in w.systems;
    }
  }
}
