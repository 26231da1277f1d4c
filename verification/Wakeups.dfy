/**
 * Waiting for a condition with check, subscribe, check again and await: the
 * cancellation handles and the forward-task tracker, with any number of
 * threads under any scheduler. Waking everybody reaches every subscription
 * made before it.
 */
module Wakeups {
  import opened Common

  /** The shared atomic: a cancellation flag, or the number of registered tasks. */
  datatype Cell = Flag(cancelled: bool) | Count(active: nat)

  /** What the waiters wait for. */
  predicate Holds(cell: Cell) {
    match cell
    case Flag(cancelled) => cancelled
    case Count(active) => active == 0
  }

  /** `notified` belongs to the subscription a waiter has made. */
  datatype WaiterPc = FirstCheck | Subscribe | SecondCheck(notified: bool) | Parked(notified: bool) | Returned

  datatype CancelPc = Store | CancelNotify | CancelDone

  datatype GuardPc = Unregistered | Live | GuardNotify | Dropped

  datatype Thread = Waiter(waiter: WaiterPc) | Canceller(cancel: CancelPc) | Guard(guard: GuardPc)

  datatype State = State(cell: Cell, threads: map<nat, Thread>)

  /** Between its change of the cell and its call of `notify_waiters`. */
  predicate AtNotify(t: Thread) {
    t == Canceller(CancelNotify) || t == Guard(GuardNotify)
  }

  function Wake(t: Thread): Thread {
    match t
    case Waiter(SecondCheck(_)) => Waiter(SecondCheck(true))
    case Waiter(Parked(_)) => Waiter(Parked(true))
    case _ => t
  }

  function WakeAll(threads: map<nat, Thread>): (r: map<nat, Thread>)
    ensures r.Keys == threads.Keys
    ensures forall id :: id in threads ==> r[id] == Wake(threads[id])
  {
    map id | id in threads :: Wake(threads[id])
  }

  predicate Enabled(s: State, id: nat) {
    && id in s.threads
    && match s.threads[id]
       case Waiter(Parked(notified)) => notified
       case Waiter(Returned) => false
       case Waiter(_) => true
       case Canceller(pc) => pc != CancelDone
       case Guard(pc) => pc != Dropped
  }

  function WaiterStep(cell: Cell, pc: WaiterPc): WaiterPc {
    match pc
    case FirstCheck => if Holds(cell) then Returned else Subscribe
    case Subscribe => SecondCheck(false)
    case SecondCheck(notified) => if Holds(cell) then Returned else Parked(notified)
    case Parked(_) => FirstCheck
    case Returned => Returned
  }

  /** One atomic step of thread `id`. */
  function Step(s: State, id: nat): State
    requires Enabled(s, id)
  {
    match s.threads[id]
    case Waiter(pc) => s.(threads := s.threads[id := Waiter(WaiterStep(s.cell, pc))])
    case Canceller(Store) => State(Flag(true), s.threads[id := Canceller(CancelNotify)])
    case Canceller(_) => s.(threads := WakeAll(s.threads)[id := Canceller(CancelDone)])
    case Guard(Unregistered) => State(Count(Active(s) + 1), s.threads[id := Guard(Live)])
    case Guard(Live) =>
      State(Count(Max(0, Active(s) - 1)),
            s.threads[id := Guard(if Active(s) == 1 then GuardNotify else Dropped)])
    case Guard(_) => s.(threads := WakeAll(s.threads)[id := Guard(Dropped)])
  }

  function Active(s: State): nat {
    if s.cell.Count? then s.cell.active else 0
  }

  function Run(s: State, schedule: seq<nat>): State
    decreases |schedule|
  {
    if schedule == [] then s
    else Run(if Enabled(s, schedule[0]) then Step(s, schedule[0]) else s, schedule[1..])
  }

  // ----- The invariant -----

  ghost function LiveGuards(threads: map<nat, Thread>): set<nat> {
    set id | id in threads && threads[id] == Guard(Live)
  }

  ghost predicate Notifying(s: State) {
    exists id :: id in s.threads && AtNotify(s.threads[id])
  }

  /** Cancellers share a flag, guards share a counter. */
  ghost predicate Typed(s: State) {
    forall id :: id in s.threads ==>
      && (s.threads[id].Canceller? ==> s.cell.Flag?)
      && (s.threads[id].Guard? ==> s.cell.Count?)
  }

  ghost predicate Inv(s: State) {
    && Typed(s)
    && (s.cell.Count? ==> s.cell.active == |LiveGuards(s.threads)|)
    && (forall id :: id in s.threads && s.threads[id] == Waiter(Parked(false)) ==>
          !Holds(s.cell) || Notifying(s))
    && (s.cell.Flag? ==> forall id :: id in s.threads && s.threads[id] == Waiter(Returned) ==> Holds(s.cell))
    && (s.cell.Flag? ==> forall id :: id in s.threads && s.threads[id].Canceller? ==>
          (s.threads[id].cancel != Store ==> Holds(s.cell)))
  }

  /** Nobody has started: no cancellation, no registration. */
  ghost predicate Initial(s: State) {
    && Typed(s)
    && s.cell in {Flag(false), Count(0)}
    && forall id :: id in s.threads ==>
         s.threads[id] in {Waiter(FirstCheck), Canceller(Store), Guard(Unregistered)}
  }

  lemma InitialInv(s: State)
    requires Initial(s)
    ensures Inv(s)
  {
    assert LiveGuards(s.threads) == {};
  }

  lemma LiveAfterUpdate(threads: map<nat, Thread>, id: nat, t: Thread)
    requires id in threads
    ensures LiveGuards(threads[id := t])
         == LiveGuards(threads) - {id} + (if t == Guard(Live) then {id} else {})
  {
  }

  lemma LiveAfterWake(threads: map<nat, Thread>)
    ensures LiveGuards(WakeAll(threads)) == LiveGuards(threads)
  {
    assert forall id :: id in threads ==> (Wake(threads[id]) == Guard(Live) <==> threads[id] == Guard(Live));
  }

  lemma StepKeepsCount(s: State, id: nat)
    requires Inv(s) && Enabled(s, id)
    ensures
      var s' := Step(s, id);
      s'.cell.Count? ==> s'.cell.active == |LiveGuards(s'.threads)|
  {
    var t := Step(s, id).threads[id];
    LiveAfterUpdate(s.threads, id, t);
    LiveAfterWake(s.threads);
    LiveAfterUpdate(WakeAll(s.threads), id, t);
    if s.threads[id] == Guard(Live) {
      assert id in LiveGuards(s.threads);
    }
  }

  lemma StepKeepsInv(s: State, id: nat)
    requires Inv(s) && Enabled(s, id)
    ensures Inv(Step(s, id))
  {
    var s' := Step(s, id);
    StepKeepsCount(s, id);
    if AtNotify(s.threads[id]) {
      assert forall j :: j in s'.threads ==> s'.threads[j] != Waiter(Parked(false));
    } else {
      forall j | j in s'.threads && s'.threads[j] == Waiter(Parked(false))
        ensures !Holds(s'.cell) || Notifying(s')
      {
        if j != id {
          assert s.threads[j] == Waiter(Parked(false));
          if AtNotify(s'.threads[id]) {
          } else if Holds(s'.cell) && Holds(s.cell) {
            var n :| n in s.threads && AtNotify(s.threads[n]);
            assert s'.threads[n] == s.threads[n];
          }
        }
      }
    }
  }

  /**
   * No lost wake-ups. In every reachable state a waiter is parked with no
   * notification due only if its condition is false or some thread is still
   * to notify; the task counter is the number of live guards.
   */
  lemma {:induction false} NoLostWakeups(s: State, schedule: seq<nat>)
    requires Inv(s)
    ensures Inv(Run(s, schedule))
    decreases |schedule|
  {
    if schedule != [] {
      if Enabled(s, schedule[0]) {
        StepKeepsInv(s, schedule[0]);
        NoLostWakeups(Step(s, schedule[0]), schedule[1..]);
      } else {
        NoLostWakeups(s, schedule[1..]);
      }
    }
  }

  /**
   * A waiter that is parked with no notification due always has a reason: its
   * flag is down or a guard is still live, or some thread is about to notify.
   */
  lemma ParkedWaiterHasAReason(s: State, schedule: seq<nat>, id: nat)
    requires Initial(s)
    requires var r := Run(s, schedule); id in r.threads && r.threads[id] == Waiter(Parked(false))
    ensures
      var r := Run(s, schedule);
      || Notifying(r)
      || (if s.cell.Flag? then r.cell == Flag(false) else LiveGuards(r.threads) != {})
  {
    InitialInv(s);
    NoLostWakeups(s, schedule);
    CellKindStays(s, schedule);
  }

  /** What a waiter waits for: the raised flag, or that no guard is live. */
  ghost predicate Awaited(s: State) {
    if s.cell.Flag? then s.cell == Flag(true) else LiveGuards(s.threads) == {}
  }

  predicate Checks(pc: WaiterPc) {
    pc.FirstCheck? || pc.SecondCheck?
  }

  /**
   * In every run a waiter returns exactly in the step in which it checks and
   * finds what it waits for. One woken up does not return before it has
   * checked again, and one that finds nothing goes on to wait.
   */
  lemma ReturnsExactlyWhen(s: State, schedule: seq<nat>, id: nat)
    requires Initial(s)
    requires var r := Run(s, schedule); Enabled(r, id) && r.threads[id].Waiter?
    ensures
      var r := Run(s, schedule);
      Step(r, id).threads[id] == Waiter(Returned) <==> Awaited(r) && Checks(r.threads[id].waiter)
  {
    InitialInv(s);
    NoLostWakeups(s, schedule);
    var r := Run(s, schedule);
    if r.cell.Count? && r.cell.active == 0 {
      assert |LiveGuards(r.threads)| == 0;
    }
  }

  lemma {:induction false} CellKindStays(s: State, schedule: seq<nat>)
    requires Inv(s)
    ensures Run(s, schedule).cell.Count? == s.cell.Count?
    decreases |schedule|
  {
    if schedule != [] {
      if Enabled(s, schedule[0]) {
        StepKeepsInv(s, schedule[0]);
        CellKindStays(Step(s, schedule[0]), schedule[1..]);
      } else {
        CellKindStays(s, schedule[1..]);
      }
    }
  }

  /** The flag never goes back. */
  lemma {:induction false} CancellationIsPermanent(s: State, schedule: seq<nat>)
    requires Inv(s) && s.cell == Flag(true)
    ensures Run(s, schedule).cell == Flag(true)
    decreases |schedule|
  {
    if schedule != [] {
      if Enabled(s, schedule[0]) {
        StepKeepsInv(s, schedule[0]);
        CancellationIsPermanent(Step(s, schedule[0]), schedule[1..]);
      } else {
        CancellationIsPermanent(s, schedule[1..]);
      }
    }
  }

  // ----- Waiters return -----

  function Alone(s: State, id: nat, steps: nat): State
    decreases steps
  {
    if steps == 0 || !Enabled(s, id) then s else Alone(Step(s, id), id, steps - 1)
  }

  /** Once the condition holds and everybody has notified, four own steps bring any waiter home. */
  lemma WaiterReturns(s: State, id: nat)
    requires Inv(s) && Holds(s.cell) && !Notifying(s)
    requires id in s.threads && s.threads[id].Waiter?
    ensures
      var r := Alone(s, id, 4);
      && r.threads[id] == Waiter(Returned)
      && r.cell == s.cell
      && forall j :: j in s.threads && j != id ==> j in r.threads && r.threads[j] == s.threads[j]
  {
    if s.threads[id].waiter != Returned {
      assert Enabled(s, id);
      var s1 := Step(s, id);
      if s1.threads[id].waiter != Returned {
        var s2 := Step(s1, id);
        assert Alone(s, id, 4) == Alone(s2, id, 2);
      }
    }
  }
}
