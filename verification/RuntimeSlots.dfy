/** The state a runtime handle guards with its mutex: its critical sections as functions on
    values, and the handle as a class proved against them. */
module RuntimeSlots {
  import opened ModelSlots

  datatype Runtime<M> = Runtime(
    phase: Phase,
    opening: int,
    models: set<M>,
    closeInProgress: bool,
    closeGen: nat,
    doneClosed: set<nat>)

  /** What the native open returned, and what the caller of an open is told. */
  datatype EngineOpen = EngineError | NilEngine | Engine
  datatype OpenOutcome = Failed | ReturnedNil | Stopped | Opened

  datatype RuntimeVerdict = AlreadyClosed | ContextDone | ModelsOpen | AwaitDone(gen: nat) | Start(gen: nat)

  function OpenOutcomeOf<M>(r: Runtime<M>, engine: EngineOpen): OpenOutcome {
    match engine
    case EngineError => Failed
    case NilEngine => ReturnedNil
    case Engine => if r.phase != Open then Stopped else Opened
  }

  function OpenBegun<M>(r: Runtime<M>): Runtime<M> {
    if r.phase == Open then r.(opening := r.opening + 1) else r
  }

  function OpenEnded<M>(r: Runtime<M>): Runtime<M> {
    r.(opening := r.opening - 1)
  }

  function Registered<M>(r: Runtime<M>, model: M): Runtime<M> {
    r.(models := r.models + {model})
  }

  function Unregistered<M>(r: Runtime<M>, model: M): Runtime<M> {
    r.(models := r.models - {model})
  }

  function RuntimeVerdictOf<M>(r: Runtime<M>, contextDone: bool): RuntimeVerdict {
    if r.phase == Closed then RuntimeVerdict.AlreadyClosed
    else if contextDone then RuntimeVerdict.ContextDone
    else if r.phase == Open && (r.opening > 0 || r.models != {}) then ModelsOpen
    else if r.closeInProgress then RuntimeVerdict.AwaitDone(r.closeGen)
    else RuntimeVerdict.Start(r.closeGen + 1)
  }

  function RuntimeCloseLocked<M>(r: Runtime<M>, contextDone: bool): Runtime<M> {
    match RuntimeVerdictOf(r, contextDone)
    case AwaitDone(_) => r.(phase := Closing)
    case Start(gen) => r.(phase := Closing, closeInProgress := true, closeGen := gen)
    case _ => r
  }

  function RuntimeCloseFinished<M>(r: Runtime<M>, ok: bool): Runtime<M> {
    r.(closeInProgress := false,
       phase := if ok then Closed else r.phase,
       doneClosed := r.doneClosed + {r.closeGen})
  }

  /** The handle; each method is one critical section. */
  class RuntimeHandle {
    var phase: Phase
    var opening: int
    var models: set<Model>
    var closeInProgress: bool
    var closeGen: nat
    var doneClosed: set<nat>

    ghost function View(): Runtime<Model>
      reads this
    {
      Runtime(phase, opening, models, closeInProgress, closeGen, doneClosed)
    }

    constructor ()
      ensures View() == Runtime(Open, 0, {}, false, 0, {})
    {
      phase, opening, models := Open, 0, {};
      closeInProgress, closeGen, doneClosed := false, 0, {};
    }

    method BeginOpen() returns (ok: bool)
      modifies this
      ensures ok == (old(View()).phase == Open)
      ensures View() == OpenBegun(old(View()))
      ensures ok <==> old(phase) == Open
      ensures opening == old(opening) + (if ok then 1 else 0) && phase == old(phase) && models == old(models)
    {
      if phase != Open {
        return false;
      }
      opening := opening + 1;
      ok := true;
    }

    method FinishOpen(engine: EngineOpen, capacity: nat) returns (outcome: OpenOutcome, model: Model?)
      modifies this
      ensures outcome == OpenOutcomeOf(old(View()), engine)
      ensures outcome != Opened ==> model == null && View() == OpenEnded(old(View()))
      ensures outcome == Opened ==>
        && model != null && fresh(model) && fresh(model.issued) && model.Valid()
        && model.View() == Slots(capacity, Open, false, [], {}, false, false, 0, {})
        && View() == Registered(OpenEnded(old(View())), model)
      ensures opening == old(opening) - 1 && phase == old(phase)
      ensures engine == EngineError ==> outcome == Failed
      ensures engine == NilEngine ==> outcome == ReturnedNil
      ensures engine == Engine && old(phase) != Open ==> outcome == Stopped
      ensures engine == Engine && old(phase) == Open ==>
        outcome == Opened && model != null && model !in old(models) && models == old(models) + {model}
      ensures outcome != Opened ==> models == old(models)
    {
      model := null;
      opening := opening - 1;
      match engine {
        case EngineError => return Failed, null;
        case NilEngine => return ReturnedNil, null;
        case Engine =>
      }
      if phase != Open {
        return Stopped, null;
      }
      model := new Model(capacity);
      models := models + {model};
      outcome := Opened;
    }

    method Unregister(model: Model)
      modifies this`models
      ensures View() == Unregistered(old(View()), model)
      ensures forall m :: m in models <==> m in old(models) && m != model
    {
      models := models - {model};
    }

    method CloseLock(contextDone: bool) returns (verdict: RuntimeVerdict)
      modifies this
      ensures verdict == RuntimeVerdictOf(old(View()), contextDone)
      ensures View() == RuntimeCloseLocked(old(View()), contextDone)
      ensures old(phase) == Closed ==> verdict == RuntimeVerdict.AlreadyClosed && phase == Closed
      ensures old(phase) != Closed && contextDone ==> verdict == RuntimeVerdict.ContextDone && phase == old(phase)
      ensures old(phase) == Open && !contextDone && (old(opening) > 0 || old(models) != {}) ==>
        verdict == ModelsOpen && phase == Open && closeInProgress == old(closeInProgress)
      ensures old(phase) != Closed && !contextDone && (old(phase) == Closing || (old(opening) <= 0 && old(models) == {})) ==>
        && phase == Closing && closeInProgress
        && if old(closeInProgress) then verdict == RuntimeVerdict.AwaitDone(old(closeGen)) && closeGen == old(closeGen)
           else verdict == RuntimeVerdict.Start(old(closeGen) + 1) && closeGen == old(closeGen) + 1
      ensures opening == old(opening) && models == old(models)
    {
      if phase == Closed {
        return RuntimeVerdict.AlreadyClosed;
      }
      if contextDone {
        return RuntimeVerdict.ContextDone;
      }
      if phase == Open {
        if opening > 0 || |models| > 0 {
          return ModelsOpen;
        }
        phase := Closing;
      }
      if closeInProgress {
        return RuntimeVerdict.AwaitDone(closeGen);
      }
      closeInProgress := true;
      closeGen := closeGen + 1;
      return RuntimeVerdict.Start(closeGen);
    }

    method CloseUnlock(ok: bool)
      requires closeGen !in doneClosed
      modifies this
      ensures View() == RuntimeCloseFinished(old(View()), ok)
      ensures !closeInProgress && closeGen in doneClosed && phase == if ok then Closed else old(phase)
    {
      closeInProgress := false;
      if ok {
        phase := Closed;
      }
      doneClosed := doneClosed + {closeGen};
    }
  }
}
