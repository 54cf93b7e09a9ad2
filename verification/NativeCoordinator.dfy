/** The process-wide coordinator that counts leases on one native environment whose
    initialization and destruction may each fail. */
module NativeCoordinator {

  import opened Wrappers

  /** An environment and the library it was asked to load. */
  datatype Key = Key(path: string, sha256: string)

  datatype Coordinator = Coordinator(environment: Option<nat>, key: Option<Key>, leases: int, cleanupPending: bool)

  /** Whether the caller's context is live when the call starts, and when it has the mutex. */
  datatype Context = Context(liveAtEntry: bool, liveLocked: bool)

  /** What the native calls of one acquisition would answer, whether or not they are made. */
  datatype Answers = Answers(context: Context, retryDestroy: bool, initialize: bool, version: bool, destroy: bool)

  datatype AcquireResult = Leased | ContextDone | Incomplete | CleanupOwed | RetryFailed | OtherLibrary | InitializeFailed | WrongVersion

  datatype CloseResult = Released | CloseContextDone | AlreadyReleased | NoLeases | DestroyFailed

  /** Native calls that succeeded in one step. */
  datatype Calls = Calls(initialized: nat, destroyed: nat)

  const IDLE := Coordinator(None, None, 0, false)

  function AcquireWith(c: Coordinator, key: Key, environment: nat, a: Answers, calls: Calls)
      : (Coordinator, AcquireResult, Calls)
  {
    if c.leases > 0 then
      if c.key != Some(key) then (c, OtherLibrary, calls)
      else (c.(leases := c.leases + 1), Leased, calls)
    else if !a.initialize then (c, InitializeFailed, calls)
    else if !a.version then
      if a.destroy then (c, WrongVersion, Calls(calls.initialized + 1, calls.destroyed + 1))
      else (c.(environment := Some(environment), key := Some(key), cleanupPending := true),
            WrongVersion, Calls(calls.initialized + 1, calls.destroyed))
    else
      (c.(environment := Some(environment), key := Some(key), leases := 1),
       Leased, Calls(calls.initialized + 1, calls.destroyed))
  }

  function Acquire(c: Coordinator, key: Key, environment: nat, a: Answers): (Coordinator, AcquireResult, Calls) {
    if !a.context.liveAtEntry then (c, ContextDone, Calls(0, 0))
    else if key.path == "" || key.sha256 == "" then (c, Incomplete, Calls(0, 0))
    else if !a.context.liveLocked then (c, ContextDone, Calls(0, 0))
    else if c.cleanupPending then
      if c.leases > 0 then (c, CleanupOwed, Calls(0, 0))
      else if !a.retryDestroy then (c, RetryFailed, Calls(0, 0))
      else AcquireWith(c.(environment := None, key := None, cleanupPending := false), key, environment, a, Calls(0, 1))
    else AcquireWith(c, key, environment, a, Calls(0, 0))
  }

  function Close(c: Coordinator, released: bool, context: Context, destroy: bool): (Coordinator, CloseResult, Calls) {
    if !context.liveAtEntry then (c, CloseContextDone, Calls(0, 0))
    else if released then (c, AlreadyReleased, Calls(0, 0))
    else if !context.liveLocked then (c, CloseContextDone, Calls(0, 0))
    else if c.leases <= 0 then (c, NoLeases, Calls(0, 0))
    else if c.leases > 1 then (c.(leases := c.leases - 1), Released, Calls(0, 0))
    else if !destroy then (c.(cleanupPending := true), DestroyFailed, Calls(0, 0))
    else (IDLE, Released, Calls(0, 1))
  }

  /** The coordinator itself; `initialized` and `destroyed` count the native calls that succeeded. */
  class CoordinatorHandle {
    var environment: Option<nat>
    var key: Option<Key>
    var leases: int
    var cleanupPending: bool
    var initialized: nat
    var destroyed: nat

    ghost function View(): Coordinator
      reads this
    {
      Coordinator(environment, key, leases, cleanupPending)
    }

    constructor ()
      ensures View() == IDLE && initialized == destroyed == 0
    {
      environment, key, leases, cleanupPending := None, None, 0, false;
      initialized, destroyed := 0, 0;
    }

    method Initialize(answer: bool) returns (ok: bool)
      modifies this`initialized
      ensures ok == answer && initialized == old(initialized) + if ok then 1 else 0
    {
      ok := answer;
      if ok { initialized := initialized + 1; }
    }

    method Destroy(answer: bool) returns (ok: bool)
      modifies this`destroyed
      ensures ok == answer && destroyed == old(destroyed) + if ok then 1 else 0
    {
      ok := answer;
      if ok { destroyed := destroyed + 1; }
    }

    method AcquireLease(wanted: Key, candidate: nat, a: Answers) returns (result: AcquireResult, lease: LeaseHandle?)
      modifies this
      ensures var (after, outcome, calls) := Acquire(old(View()), wanted, candidate, a);
        && View() == after && result == outcome
        && initialized == old(initialized) + calls.initialized
        && destroyed == old(destroyed) + calls.destroyed
      ensures (lease != null) == (result == Leased)
      ensures lease != null ==> fresh(lease) && lease.coordinator == this && !lease.released
    {
      lease := null;
      if !a.context.liveAtEntry {
        return ContextDone, null;
      }
      if wanted.path == "" || wanted.sha256 == "" {
        return Incomplete, null;
      }
      if !a.context.liveLocked {
        return ContextDone, null;
      }
      if cleanupPending {
        if leases > 0 {
          return CleanupOwed, null;
        }
        var ok := Destroy(a.retryDestroy);
        if !ok {
          return RetryFailed, null;
        }
        environment, key, cleanupPending := None, None, false;
      }
      if leases > 0 {
        if key != Some(wanted) {
          return OtherLibrary, null;
        }
        leases := leases + 1;
        lease := new LeaseHandle(this);
        return Leased, lease;
      }
      var ok := Initialize(a.initialize);
      if !ok {
        return InitializeFailed, null;
      }
      if !a.version {
        ok := Destroy(a.destroy);
        if !ok {
          environment, key, cleanupPending := Some(candidate), Some(wanted), true;
        }
        return WrongVersion, null;
      }
      environment, key, leases := Some(candidate), Some(wanted), 1;
      lease := new LeaseHandle(this);
      result := Leased;
    }
  }

  class LeaseHandle {
    const coordinator: CoordinatorHandle
    var released: bool

    constructor (coordinator: CoordinatorHandle)
      ensures this.coordinator == coordinator && !released
    {
      this.coordinator := coordinator;
      released := false;
    }

    method CloseLease(context: Context, destroy: bool) returns (result: CloseResult)
      modifies this, coordinator
      ensures var (after, outcome, calls) := Close(old(coordinator.View()), old(released), context, destroy);
        && coordinator.View() == after && result == outcome
        && coordinator.initialized == old(coordinator.initialized)
        && coordinator.destroyed == old(coordinator.destroyed) + calls.destroyed
      ensures released <==> old(released) || result == Released
    {
      if !context.liveAtEntry {
        return CloseContextDone;
      }
      if released {
        return AlreadyReleased;
      }
      if !context.liveLocked {
        return CloseContextDone;
      }
      if coordinator.leases <= 0 {
        return NoLeases;
      }
      if coordinator.leases > 1 {
        coordinator.leases := coordinator.leases - 1;
        released := true;
        return Released;
      }
      var ok := coordinator.Destroy(destroy);
      if !ok {
        coordinator.cleanupPending := true;
        return DestroyFailed;
      }
      coordinator.environment, coordinator.key := None, None;
      coordinator.leases, coordinator.cleanupPending := 0, false;
      released := true;
      result := Released;
    }
  }

  // ---- every run ----

  /** All leases ever issued, each with the library it was asked for and whether it is released. */
  datatype Lease = Lease(key: Key, released: bool)

  datatype System = System(c: Coordinator, issued: map<nat, Lease>, initialized: int, destroyed: int)

  datatype Event =
    | AcquireEvent(id: nat, key: Key, environment: nat, answers: Answers)
    | CloseEvent(id: nat, context: Context, destroy: bool)

  const START := System(IDLE, map[], 0, 0)

  predicate Enabled(s: System, e: Event) {
    match e
    case AcquireEvent(id, _, _, _) => id !in s.issued
    case CloseEvent(id, _, _) => id in s.issued
  }

  function Next(s: System, e: Event): System
    requires Enabled(s, e)
  {
    match e
    case AcquireEvent(id, key, environment, answers) =>
      var (c, result, calls) := Acquire(s.c, key, environment, answers);
      System(c, if result == Leased then s.issued[id := Lease(key, false)] else s.issued,
             s.initialized + calls.initialized, s.destroyed + calls.destroyed)
    case CloseEvent(id, context, destroy) =>
      var (c, result, calls) := Close(s.c, s.issued[id].released, context, destroy);
      System(c, if result == Released then s.issued[id := s.issued[id].(released := true)] else s.issued,
             s.initialized + calls.initialized, s.destroyed + calls.destroyed)
  }

  ghost predicate Run(s: System, events: seq<Event>, t: System)
    decreases |events|
  {
    if events == [] then s == t
    else Enabled(s, events[0]) && Run(Next(s, events[0]), events[1..], t)
  }

  function Held(s: System): set<nat> {
    set id | id in s.issued && !s.issued[id].released
  }

  ghost predicate Inv(s: System) {
    && s.c.leases == |Held(s)|
    && (forall id :: id in Held(s) ==> s.c.key == Some(s.issued[id].key))
    && s.initialized - s.destroyed == (if s.c.environment.Some? then 1 else 0)
    && (s.c.environment.Some? <==> s.c.leases > 0 || s.c.cleanupPending)
    && (s.c.environment.Some? <==> s.c.key.Some?)
    && (s.c.cleanupPending ==> s.c.leases <= 1)
  }

  lemma AcquireKeepsInv(s: System, id: nat, key: Key, environment: nat, answers: Answers)
    requires Inv(s) && id !in s.issued
    ensures Inv(Next(s, AcquireEvent(id, key, environment, answers)))
  {
    var t := Next(s, AcquireEvent(id, key, environment, answers));
    if Acquire(s.c, key, environment, answers).1 == Leased {
      assert Held(t) == Held(s) + {id};
    } else {
      assert Held(t) == Held(s);
    }
  }

  lemma CloseKeepsInv(s: System, id: nat, context: Context, destroy: bool)
    requires Inv(s) && id in s.issued
    ensures Inv(Next(s, CloseEvent(id, context, destroy)))
  {
    var t := Next(s, CloseEvent(id, context, destroy));
    if Close(s.c, s.issued[id].released, context, destroy).1 == Released {
      assert id in Held(s);
      assert Held(t) == Held(s) - {id};
    } else {
      assert Held(t) == Held(s);
    }
  }

  lemma {:induction false} InvRun(s: System, events: seq<Event>, t: System)
    requires Inv(s) && Run(s, events, t)
    ensures Inv(t)
    decreases |events|
  {
    if events != [] {
      match events[0] {
        case AcquireEvent(id, key, environment, answers) => AcquireKeepsInv(s, id, key, environment, answers);
        case CloseEvent(id, context, destroy) => CloseKeepsInv(s, id, context, destroy);
      }
      InvRun(Next(s, events[0]), events[1..], t);
    }
  }

  lemma ReachableInv(events: seq<Event>, s: System)
    requires Run(START, events, s)
    ensures Inv(s)
  {
    var start := START;
    assert Held(start) == {};
    InvRun(start, events, s);
  }

  /** In every run the lease counter is the number of leases not yet released, all of them for the
      library now loaded; one environment is alive exactly when the coordinator records it, which
      is exactly while leases are out or a failed teardown is owed; and a teardown is never owed
      while two leases are out. */
  lemma EnvironmentBalance(events: seq<Event>, s: System)
    requires Run(START, events, s)
    ensures s.c.leases == |Held(s)|
    ensures forall id :: id in Held(s) ==> s.c.key == Some(s.issued[id].key)
    ensures s.initialized - s.destroyed == if s.c.environment.Some? then 1 else 0
    ensures s.c.environment.Some? <==> Held(s) != {} || s.c.cleanupPending
    ensures s.c.cleanupPending ==> |Held(s)| <= 1
  {
    ReachableInv(events, s);
  }

  /** Closing a lease the coordinator issued never finds the counter at zero, and with a live
      context it succeeds whenever its teardown does: only the last holder's teardown can fail, the
      lease then stays held, and closing it again retries. An ended context refuses the call. */
  lemma IssuedLeaseClosesUnlessTeardownFails(events: seq<Event>, s: System, id: nat, context: Context, destroy: bool)
    requires Run(START, events, s) && id in s.issued
    ensures var (after, result, _) := Close(s.c, s.issued[id].released, context, destroy);
      var live := context.liveAtEntry && context.liveLocked;
      && result != NoLeases
      && (result == CloseContextDone <==> !context.liveAtEntry || (id in Held(s) && !context.liveLocked))
      && (result == DestroyFailed <==> live && Held(s) == {id} && !destroy)
      && (result == Released <==> live && id in Held(s) && (destroy || Held(s) != {id}))
      && (result == CloseContextDone ==> after == s.c)
  {
    ReachableInv(events, s);
    if id in Held(s) && |Held(s)| == 1 {
      assert |Held(s) - {id}| == 0;
      assert Held(s) == {id};
    }
  }

  /** Which refusal a request gets, and what it leaves: an owed teardown retried successfully leaves
      nothing recorded, a wrong version whose teardown fails is recorded as owed, and otherwise a
      refused request changes nothing. */
  lemma RefusalDecided(events: seq<Event>, s: System, key: Key, environment: nat, a: Answers)
    requires Run(START, events, s)
    ensures var (after, result, calls) := Acquire(s.c, key, environment, a);
      && (result == Incomplete ==> a.context.liveAtEntry && (key.path == "" || key.sha256 == "") && after == s.c)
      && (result == ContextDone <==>
           !a.context.liveAtEntry || (key.path != "" && key.sha256 != "" && !a.context.liveLocked))
      && (result == ContextDone ==> after == s.c && calls == Calls(0, 0))
      && (result == CleanupOwed ==> s.c.cleanupPending && |Held(s)| == 1 && after == s.c)
      && (result == RetryFailed ==> s.c.cleanupPending && Held(s) == {} && !a.retryDestroy && after == s.c)
      && (result == OtherLibrary ==> !s.c.cleanupPending && Held(s) != {} && s.c.key != Some(key) && after == s.c)
      && (result == InitializeFailed ==> !a.initialize && after == if s.c.cleanupPending then IDLE else s.c)
      && (result == WrongVersion ==> a.initialize && !a.version)
      && (result == WrongVersion ==> after == if a.destroy then IDLE else Coordinator(Some(environment), Some(key), 0, true))
  {
    ReachableInv(events, s);
  }

  /** What a granted request leaves: one more lease of the environment already loaded, or the first
      lease of the one just initialized. */
  lemma GrantDecided(events: seq<Event>, s: System, key: Key, environment: nat, a: Answers)
    requires Run(START, events, s) && Acquire(s.c, key, environment, a).1 == Leased
    ensures var (after, _, calls) := Acquire(s.c, key, environment, a);
      && (Held(s) != {} ==> after == s.c.(leases := |Held(s)| + 1) && s.c.key == Some(key) && calls == Calls(0, 0))
      && (Held(s) == {} ==>
           && after == Coordinator(Some(environment), Some(key), 1, false)
           && calls == Calls(1, if s.c.cleanupPending then 1 else 0))
  {
    ReachableInv(events, s);
    if Held(s) == {} { FirstGrant(s.c, key, environment, a); } else { FurtherGrant(s.c, key, environment, a); }
  }

  lemma FirstGrant(c: Coordinator, key: Key, environment: nat, a: Answers)
    requires c.leases == 0 && (c.environment.Some? <==> c.cleanupPending) && Acquire(c, key, environment, a).1 == Leased
    ensures Acquire(c, key, environment, a).0 == Coordinator(Some(environment), Some(key), 1, false)
    ensures Acquire(c, key, environment, a).2 == Calls(1, if c.cleanupPending then 1 else 0)
  {}

  lemma FurtherGrant(c: Coordinator, key: Key, environment: nat, a: Answers)
    requires c.leases > 0 && Acquire(c, key, environment, a).1 == Leased
    ensures Acquire(c, key, environment, a).0 == c.(leases := c.leases + 1)
    ensures c.key == Some(key) && Acquire(c, key, environment, a).2 == Calls(0, 0)
  {}

  /** What closing a lease leaves: the others untouched, or with the last of them nothing; a failed
      teardown is owed and everything else stays. */
  lemma CloseDecided(events: seq<Event>, s: System, id: nat, context: Context, destroy: bool)
    requires Run(START, events, s) && id in s.issued
    ensures var (after, result, calls) := Close(s.c, s.issued[id].released, context, destroy);
      && (result == Released && |Held(s)| > 1 ==> after == s.c.(leases := |Held(s)| - 1) && calls == Calls(0, 0))
      && (result == Released && |Held(s)| <= 1 ==> after == Coordinator(None, None, 0, false) && calls == Calls(0, 1))
      && (result == DestroyFailed ==> after == s.c.(cleanupPending := true) && calls == Calls(0, 0))
      && (result == AlreadyReleased <==> context.liveAtEntry && id !in Held(s))
      && (result == AlreadyReleased ==> after == s.c && calls == Calls(0, 0))
  {
    ReachableInv(events, s);
  }

  /** What a request needs from the native side: a teardown still owed is retried successfully, and
      then either the same library is already loaded or it initializes with the right version. */
  ghost predicate NativeSideGrants(s: System, key: Key, a: Answers) {
    if s.c.cleanupPending then Held(s) == {} && a.retryDestroy && a.initialize && a.version
    else if Held(s) != {} then s.c.key == Some(key)
    else a.initialize && a.version
  }

  /** A lease is granted exactly for a complete request whose context stays live and which the
      native side lets through. */
  lemma AcquireSucceedsExactly(events: seq<Event>, s: System, key: Key, environment: nat, a: Answers)
    requires Run(START, events, s)
    ensures Acquire(s.c, key, environment, a).1 == Leased <==>
      && a.context.liveAtEntry && a.context.liveLocked
      && key.path != "" && key.sha256 != "" && NativeSideGrants(s, key, a)
  {
    ReachableInv(events, s);
  }
}
