/** The state a model handle guards with its mutex, the critical sections that change it
    (as functions on values), and the handle itself (as a class proved against them).

    A channel is represented by whether it has been closed; closing it twice would panic, so
    every close below carries the precondition that the channel is still open. */
module ModelSlots {

  datatype Phase = Open | Closing | Closed

  /** One value per field of the handle; `granted` collects the waiters whose own flag is set,
      `doneClosed` the generations of the close-done channel that have been closed. */
  datatype Slots<W> = Slots(
    capacity: nat,
    phase: Phase,
    active: bool,
    waiters: seq<W>,
    granted: set<W>,
    idleClosed: bool,
    closeInProgress: bool,
    closeGen: nat,
    doneClosed: set<nat>)

  datatype Admission = Admitted | Queued | RefusedClosed | RefusedFull

  datatype CloseVerdict = AlreadyClosed | ContextDone | AwaitIdle | AwaitDone(gen: nat) | Start(gen: nat)

  function Drained<W>(m: Slots<W>): bool {
    !m.active && m.waiters == []
  }

  function AdmissionOf<W>(m: Slots<W>): Admission {
    if m.phase != Open then RefusedClosed
    else if !m.active then Admitted
    else if |m.waiters| >= m.capacity then RefusedFull
    else Queued
  }

  function Admit<W>(m: Slots<W>): Slots<W> {
    m.(active := true)
  }

  function Enqueue<W>(m: Slots<W>, w: W): Slots<W> {
    m.(waiters := m.waiters + [w])
  }

  function SignalIdle<W>(m: Slots<W>): Slots<W> {
    if m.phase == Closing && Drained(m) then m.(idleClosed := true) else m
  }

  /** Hands the slot to the oldest waiter, or frees it. */
  function Release<W>(m: Slots<W>): Slots<W> {
    if m.waiters != [] then
      m.(waiters := m.waiters[1..], granted := m.granted + {m.waiters[0]})
    else
      SignalIdle(m.(active := false))
  }

  function Without<W(==)>(s: seq<W>, x: W): seq<W> {
    if s == [] then []
    else if s[0] == x then s[1..]
    else [s[0]] + Without(s[1..], x)
  }

  /** A waiter that gives up: passes a grant it already holds on, or leaves the queue. */
  function Cancel<W(==)>(m: Slots<W>, w: W): Slots<W> {
    if w in m.granted then Release(m) else SignalIdle(m.(waiters := Without(m.waiters, w)))
  }

  function BeginClosing<W>(m: Slots<W>): Slots<W> {
    if m.phase == Open then SignalIdle(m.(phase := Closing)) else m
  }

  function CloseVerdictOf<W>(m: Slots<W>, contextDone: bool): CloseVerdict {
    if m.phase == Closed then AlreadyClosed
    else if contextDone then ContextDone
    else if !Drained(m) then AwaitIdle
    else if m.closeInProgress then AwaitDone(m.closeGen)
    else Start(m.closeGen + 1)
  }

  function CloseLocked<W>(m: Slots<W>, contextDone: bool): Slots<W> {
    match CloseVerdictOf(m, contextDone)
    case AlreadyClosed => m
    case ContextDone => m
    case AwaitIdle => BeginClosing(m)
    case AwaitDone(_) => BeginClosing(m)
    case Start(gen) => BeginClosing(m).(closeInProgress := true, closeGen := gen)
  }

  function CloseFinished<W>(m: Slots<W>, ok: bool): Slots<W> {
    m.(closeInProgress := false,
       phase := if ok then Closed else m.phase,
       doneClosed := m.doneClosed + {m.closeGen})
  }

  ghost predicate Distinct<W>(s: seq<W>) {
    forall i, j :: 0 <= i < j < |s| ==> s[i] != s[j]
  }

  lemma {:induction false} WithoutAt<W>(s: seq<W>, x: W, i: nat)
    requires i < |s| && s[i] == x && x !in s[..i]
    ensures Without(s, x) == s[..i] + s[i + 1..]
  {
    if i > 0 {
      assert s[0] == s[..i][0];
      assert s[1..][..i - 1] == s[..i][1..];
      WithoutAt(s[1..], x, i - 1);
      assert s == [s[0]] + s[1..];
    }
  }

  lemma {:induction false} WithoutAbsent<W>(s: seq<W>, x: W)
    requires x !in s
    ensures Without(s, x) == s
  {
    if s != [] {
      WithoutAbsent(s[1..], x);
      assert s == [s[0]] + s[1..];
    }
  }

  /** Taking one element out of a sequence without repetitions keeps the others, in order. */
  lemma {:induction false} WithoutDistinct<W>(s: seq<W>, x: W)
    requires Distinct(s)
    ensures Distinct(Without(s, x)) && x !in Without(s, x)
    ensures forall y :: y in Without(s, x) <==> y in s && y != x
    ensures |Without(s, x)| == if x in s then |s| - 1 else |s|
  {
    if s != [] {
      assert s == [s[0]] + s[1..];
      WithoutDistinct(s[1..], x);
      assert s[0] !in s[1..];
    }
  }

  lemma {:induction false} WithoutSecond<W>(a: seq<W>, b: seq<W>, x: W)
    requires x !in a
    ensures Without(a + b, x) == a + Without(b, x)
  {
    if a == [] {
      assert a + b == b;
    } else {
      assert (a + b)[1..] == a[1..] + b;
      WithoutSecond(a[1..], b, x);
      assert a == [a[0]] + a[1..];
    }
  }

  /** A queued caller: its grant flag and its ready channel. */
  class Waiter {
    var granted: bool
    var readyClosed: bool

    constructor ()
      ensures !granted && !readyClosed
    {
      granted, readyClosed := false, false;
    }

    method Grant()
      requires !readyClosed
      modifies this
      ensures granted && readyClosed
    {
      granted := true;
      readyClosed := true;
    }
  }

  /** The handle. Each method is one critical section, from lock to unlock. */
  class Model {
    const capacity: nat
    var phase: Phase
    var active: bool
    var waiters: seq<Waiter>
    var idleSet: bool
    var idleClosed: bool
    var closingClosed: bool
    var closeInProgress: bool
    var closeGen: nat
    var doneClosed: set<nat>
    ghost var issued: set<Waiter>

    ghost predicate Valid()
      reads this, issued
    {
      && Distinct(waiters)
      && (forall w :: w in waiters ==> w in issued && !w.granted)
      && (forall w :: w in issued ==> w.readyClosed == w.granted)
      && idleSet == idleClosed
      && (closingClosed <==> phase != Open)
      && (idleClosed ==> phase != Open)
      && (closeInProgress ==> closeGen !in doneClosed)
      && (forall g :: g in doneClosed ==> g <= closeGen)
    }

    ghost function View(): Slots<Waiter>
      reads this, issued
    {
      Slots(capacity, phase, active, waiters, (set w | w in issued && w.granted),
            idleClosed, closeInProgress, closeGen, doneClosed)
    }

    constructor (capacity: nat)
      ensures Valid() && fresh(issued)
      ensures View() == Slots(capacity, Open, false, [], {}, false, false, 0, {})
    {
      this.capacity := capacity;
      phase, active, waiters := Open, false, [];
      idleSet, idleClosed, closingClosed := false, false, false;
      closeInProgress, closeGen, doneClosed := false, 0, {};
      issued := {};
    }

    method Acquire() returns (outcome: Admission, waiter: Waiter?)
      requires Valid()
      modifies this
      ensures Valid()
      ensures outcome == AdmissionOf(old(View()))
      ensures outcome != Queued ==> waiter == null && issued == old(issued)
      ensures outcome == Admitted ==> View() == Admit(old(View()))
      ensures outcome == RefusedClosed || outcome == RefusedFull ==> View() == old(View())
      ensures outcome == Queued ==>
        waiter != null && fresh(waiter) && issued == old(issued) + {waiter} && !waiter.readyClosed
        && View() == Enqueue(old(View()), waiter)
      ensures old(phase) != Open ==> outcome == RefusedClosed
      ensures old(phase) == Open && !old(active) ==> outcome == Admitted && active && waiters == old(waiters)
      ensures old(phase) == Open && old(active) && |old(waiters)| < capacity ==>
        outcome == Queued && active && waiter != null && waiters == old(waiters) + [waiter]
      ensures old(phase) == Open && old(active) && |old(waiters)| >= capacity ==> outcome == RefusedFull
      ensures outcome == RefusedClosed || outcome == RefusedFull ==> active == old(active) && waiters == old(waiters)
      ensures phase == old(phase)
    {
      waiter := null;
      if phase == Closing || phase == Closed {
        return RefusedClosed, null;
      }
      if !active {
        active := true;
        return Admitted, null;
      }
      if |waiters| >= capacity {
        return RefusedFull, null;
      }
      waiter := new Waiter();
      waiters := waiters + [waiter];
      issued := issued + {waiter};
      outcome := Queued;
    }

    method SignalIdleLocked()
      requires Valid()
      modifies this`idleSet, this`idleClosed
      ensures Valid() && View() == SignalIdle(old(View()))
      ensures idleClosed <==> old(idleClosed) || (phase == Closing && !active && waiters == [])
    {
      if phase == Closing && !active && |waiters| == 0 && !idleSet {
        idleSet := true;
        CloseIdle();
      }
    }

    method CloseIdle()
      requires !idleClosed
      modifies this`idleClosed
      ensures idleClosed
    {
      idleClosed := true;
    }

    method ReleaseLocked()
      requires Valid()
      modifies this, waiters
      ensures Valid() && issued == old(issued)
      ensures View() == Release(old(View()))
      ensures old(waiters) != [] ==> old(waiters)[0].granted && waiters == old(waiters)[1..] && active == old(active)
      ensures old(waiters) == [] ==> waiters == [] && !active && idleClosed == (old(idleClosed) || phase == Closing)
    {
      if |waiters| > 0 {
        var waiter := waiters[0];
        waiters := waiters[1..];
        waiter.Grant();
        return;
      }
      active := false;
      SignalIdleLocked();
    }

    method CancelWaiter(waiter: Waiter)
      requires Valid() && waiter in issued
      modifies this, waiters
      ensures Valid() && issued == old(issued)
      ensures View() == Cancel(old(View()), waiter)
      ensures !old(waiter.granted) ==> waiter !in waiters && active == old(active)
      ensures !old(waiter.granted) ==> forall w :: w != waiter ==> (w in waiters <==> w in old(waiters))
      ensures old(waiter.granted) && old(waiters) != [] ==> old(waiters)[0].granted && waiters == old(waiters)[1..]
      ensures old(waiter.granted) && old(waiters) == [] ==> !active && waiters == []
    {
      if waiter.granted {
        ReleaseLocked();
        return;
      }
      ghost var before := waiters;
      RemoveWaiter(waiter);
      WithoutDistinct(before, waiter);
      SignalIdleLocked();
    }

    /** Takes the waiter out of the queue if it is still in it. */
    method RemoveWaiter(waiter: Waiter)
      modifies this`waiters
      ensures waiters == Without(old(waiters), waiter)
    {
      for i := 0 to |waiters|
        invariant waiter !in waiters[..i] && waiters == old(waiters)
      {
        if waiters[i] == waiter {
          WithoutAt(waiters, waiter, i);
          waiters := waiters[..i] + waiters[i + 1..];
          return;
        }
      }
      WithoutAbsent(waiters, waiter);
    }

    /** The locked part of one turn of the close loop. */
    method CloseLock(contextDone: bool) returns (verdict: CloseVerdict)
      requires Valid()
      modifies this
      ensures Valid() && issued == old(issued)
      ensures verdict == CloseVerdictOf(old(View()), contextDone)
      ensures View() == CloseLocked(old(View()), contextDone)
      ensures old(phase) == Closed ==> verdict == AlreadyClosed && phase == Closed
      ensures old(phase) != Closed && contextDone ==> verdict == ContextDone && phase == old(phase)
      ensures old(phase) != Closed && !contextDone ==> phase == Closing
      ensures old(phase) != Closed && !contextDone && (active || waiters != []) ==> verdict == AwaitIdle
      ensures old(phase) != Closed && !contextDone && !active && waiters == [] ==>
        if old(closeInProgress) then verdict == AwaitDone(old(closeGen)) && closeGen == old(closeGen)
        else verdict == Start(old(closeGen) + 1) && closeInProgress && closeGen == old(closeGen) + 1
      ensures active == old(active) && waiters == old(waiters)
    {
      if phase == Closed {
        return AlreadyClosed;
      }
      if contextDone {
        return ContextDone;
      }
      if phase == Open {
        phase := Closing;
        assert !closingClosed;
        closingClosed := true;
        SignalIdleLocked();
      }
      if active || |waiters| > 0 {
        return AwaitIdle;
      }
      if closeInProgress {
        return AwaitDone(closeGen);
      }
      closeInProgress := true;
      closeGen := closeGen + 1;
      return Start(closeGen);
    }

    /** The locked part after the engine's close has returned. */
    method CloseUnlock(ok: bool)
      requires Valid() && closeInProgress && phase != Open
      modifies this
      ensures Valid() && issued == old(issued)
      ensures View() == CloseFinished(old(View()), ok)
      ensures !closeInProgress && closeGen in doneClosed && phase == if ok then Closed else old(phase)
    {
      closeInProgress := false;
      if ok {
        phase := Closed;
      }
      doneClosed := doneClosed + {closeGen};
    }
  }
}
