/**
 * Owned tasks with an absolute shutdown deadline: a drain up to the abort
 * point, aborts, a second drain up to the deadline, and deferral of the rest.
 */
module TaskTracker {
  import opened Common

  /** Fifty milliseconds, in nanoseconds. */
  const ABORT_RESERVE: nat := 50_000_000

  datatype ShutdownDeadline = ShutdownDeadline(at: nat, budget: nat) {
    /** When tasks are aborted: a reserve before the deadline, but not in the past. */
    function AbortAt(now: nat): (r: nat)
      ensures now <= r <= Max(at, now)
      ensures at >= now + 50_000_000 ==> r == at - 50_000_000
      ensures at < now + 50_000_000 ==> r == now
    {
      Max(if at >= ABORT_RESERVE then at - ABORT_RESERVE else now, now)
    }
  }

  /** A task ends at an instant of its own, or at another one (or never) once it is aborted. */
  class OwnedTask {
    const plainEnd: Option<nat>
    const abortedEnd: Option<nat>
    var aborted: bool
    var joinHeld: bool

    constructor (plainEnd: Option<nat>, abortedEnd: Option<nat>)
      ensures this.plainEnd == plainEnd && this.abortedEnd == abortedEnd && !aborted && joinHeld
    {
      this.plainEnd, this.abortedEnd, aborted, joinHeld := plainEnd, abortedEnd, false, true;
    }

    function End(): Option<nat>
      reads this`aborted
    {
      if aborted then abortedEnd else plainEnd
    }

    method Abort()
      modifies this`aborted
      ensures aborted
    {
      aborted := true;
    }

    /** Awaits the task until `at`; a task that has ended is joined even past the deadline. */
    method WaitUntil(at: nat, clock: Clock) returns (done: bool)
      modifies this`joinHeld, clock
      ensures done == (!old(joinHeld) || EndsBy(End(), Max(old(clock.now), at)))
      ensures old(joinHeld) && !done ==>
        (match End() case None => true case Some(end) => end > Max(old(clock.now), at))
      ensures joinHeld == !done
      ensures clock.now == if !old(joinHeld) then old(clock.now)
                           else if done then Max(old(clock.now), End().value) else Max(old(clock.now), at)
    {
      if !joinHeld {
        return true;
      }
      var end := End();
      if end.Some? && end.value <= Max(clock.now, at) {
        clock.now := Max(clock.now, end.value);
        joinHeld := false;
        return true;
      }
      clock.now := Max(clock.now, at);
      return false;
    }
  }

  predicate EndsBy(end: Option<nat>, limit: nat) {
    end.Some? && end.value <= limit
  }

  /** The task is still owed a join that cannot be had by `limit`. */
  predicate Outstanding(t: OwnedTask, limit: nat)
    reads t
  {
    t.joinHeld && !EndsBy(t.End(), limit)
  }

  /**
   * Waits for the tasks one after another. Whatever their order, exactly those
   * that cannot end by `until` (or by now, if that is later) stay pending.
   * On return the others have ended, `until` has come if any is pending, and
   * time has passed only as far as a wait needed.
   */
  method DrainOwnedTasks(tasks: seq<OwnedTask>, until: nat, clock: Clock) returns (pending: seq<OwnedTask>)
    requires Distinct(tasks)
    modifies tasks, clock
    ensures Distinct(pending) && forall t :: t in pending ==> t in tasks
    ensures forall t :: t in tasks ==>
      (t in pending <==> old(Outstanding(t, Max(clock.now, until)))) && (t.joinHeld <==> t in pending)
    ensures forall t :: t in tasks ==> t.aborted == old(t.aborted)
    ensures old(clock.now) <= clock.now <= Max(old(clock.now), until)
    ensures forall t :: t in tasks && old(t.joinHeld) && t !in pending ==> EndsBy(t.End(), clock.now)
    ensures pending != [] ==> clock.now >= until
    ensures
      || clock.now == old(clock.now) || (pending != [] && clock.now == until)
      || exists t :: t in tasks && old(t.joinHeld) && t.End() == Some(clock.now)
  {
    pending := [];
    ghost var limit := Max(clock.now, until);
    for i := 0 to |tasks|
      invariant old(clock.now) <= clock.now <= limit
      invariant Distinct(pending) && forall t :: t in pending ==> t in tasks[..i]
      invariant forall t :: t in tasks[..i] ==>
        (t in pending <==> old(Outstanding(t, limit))) && (t.joinHeld <==> t in pending)
      invariant forall k :: i <= k < |tasks| ==> tasks[k].joinHeld == old(tasks[k].joinHeld)
      invariant forall t :: t in tasks ==> t.aborted == old(t.aborted)
      invariant forall t :: t in tasks[..i] && old(t.joinHeld) && t !in pending ==> EndsBy(t.End(), clock.now)
      invariant pending != [] ==> clock.now >= until
      invariant
        || clock.now == old(clock.now) || (pending != [] && clock.now == until)
        || exists t :: t in tasks && old(t.joinHeld) && t.End() == Some(clock.now)
    {
      var task := tasks[i];
      assert tasks[..i + 1] == tasks[..i] + [task];
      assert task !in tasks[..i];
      var done := task.WaitUntil(until, clock);
      if !done {
        pending := pending + [task];
      }
    }
    assert tasks[..|tasks|] == tasks;
  }

  method AbortAll(tasks: seq<OwnedTask>)
    modifies tasks
    ensures forall t :: t in tasks ==> t.aborted && t.joinHeld == old(t.joinHeld)
  {
    for i := 0 to |tasks|
      invariant forall k :: 0 <= k < i ==> tasks[k].aborted
      invariant forall t :: t in tasks ==> t.joinHeld == old(t.joinHeld)
    {
      tasks[i].Abort();
    }
  }

  /** Waits up to the abort point, aborts what is left and waits for that up to the deadline. */
  method AwaitOrAbort(tasks: seq<OwnedTask>, deadline: ShutdownDeadline, clock: Clock)
    returns (pending: seq<OwnedTask>)
    requires Distinct(tasks)
    modifies tasks, clock
    ensures Distinct(pending) && forall t :: t in pending ==> t in tasks
    ensures forall t :: t in tasks ==>
      && t.joinHeld == (t in pending)
      && (t in pending <==>
            && old(Outstanding(t, deadline.AbortAt(clock.now)))
            && !EndsBy(t.abortedEnd, Max(old(clock.now), deadline.at)))
    ensures forall t :: t in tasks && old(t.joinHeld) && t !in pending ==> EndsBy(t.End(), clock.now)
    ensures pending != [] ==> clock.now >= deadline.at
    ensures old(clock.now) <= clock.now <= Max(old(clock.now), deadline.at)
  {
    var abortAt := deadline.AbortAt(clock.now);
    ghost var endLimit := Max(clock.now, deadline.at);
    pending := DrainOwnedTasks(tasks, abortAt, clock);
    assert Max(clock.now, deadline.at) == endLimit;
    assert forall k :: 0 <= k < |pending| ==> pending[k] in tasks;
    AbortAll(pending);
    ghost var aborted := pending;
    assert forall t :: t in aborted ==> t in tasks && t.joinHeld && t.aborted;
    pending := DrainOwnedTasks(pending, deadline.at, clock);
    assert forall t :: t in aborted ==> (t in pending <==> !EndsBy(t.abortedEnd, endLimit));
  }

  /**
   * The task ends after the abort point, which lies fifty milliseconds before
   * the deadline or is now, and once aborted after the deadline.
   */
  predicate TooLate(t: OwnedTask, deadline: ShutdownDeadline, now: nat)
    reads t
  {
    && (match if t.aborted then t.abortedEnd else t.plainEnd
        case None => true
        case Some(end) => end > now && end > deadline.at - 50_000_000)
    && (match t.abortedEnd case None => true case Some(end) => end > now && end > deadline.at)
  }

  class ChildTaskTracker {
    var closed: bool
    var tasks: seq<OwnedTask>
    /** Joins handed to the process reaper. */
    var deferred: seq<OwnedTask>

    constructor ()
      ensures !closed && tasks == [] && deferred == []
    {
      closed, tasks, deferred := false, [], [];
    }

    method Spawn(plainEnd: Option<nat>, abortedEnd: Option<nat>) returns (task: OwnedTask?)
      modifies this
      ensures closed == old(closed) && deferred == old(deferred)
      ensures old(closed) ==> task == null && tasks == old(tasks)
      ensures !old(closed) ==> task != null && fresh(task) && task.joinHeld && tasks == old(tasks) + [task]
    {
      if closed {
        return null;
      }
      var t := new OwnedTask(plainEnd, abortedEnd);
      tasks := tasks + [t];
      return t;
    }

    /** Hands the joins of the tasks to the process reaper. */
    method Defer(pending: seq<OwnedTask>)
      modifies this`deferred, pending
      ensures deferred == old(deferred) + pending
      ensures forall t :: t in pending ==> !t.joinHeld && t.aborted == old(t.aborted)
    {
      for i := 0 to |pending|
        invariant forall k :: 0 <= k < i ==> !pending[k].joinHeld
        invariant forall t :: t in pending ==> t.aborted == old(t.aborted)
        invariant deferred == old(deferred) + pending[..i]
      {
        assert pending[..i + 1] == pending[..i] + [pending[i]];
        pending[i].joinHeld := false;
        deferred := deferred + [pending[i]];
      }
      assert pending[..|pending|] == pending;
    }

    /**
     * Closes the tracker, takes every task and waits for it. A task is
     * deferred exactly when it ended neither by the abort point on its own
     * nor by the deadline once aborted; every other one is joined and has
     * ended by the time the call returns. The clock never passes the deadline
     * on account of a wait, and nothing is deferred before the deadline.
     */
    method Shutdown(deadline: ShutdownDeadline, clock: Clock) returns (completed: bool)
      requires Distinct(tasks)
      modifies this, tasks, clock
      ensures closed && tasks == []
      ensures old(deferred) <= deferred
      ensures
        var late := deferred[|old(deferred)|..];
        && Distinct(late)
        && completed == (late == [])
        && (forall t :: t in late ==> t in old(tasks))
        && forall t :: t in old(tasks) ==>
             && !t.joinHeld
             && (t in late <==>
                   && old(Outstanding(t, deadline.AbortAt(clock.now)))
                   && !EndsBy(t.abortedEnd, Max(old(clock.now), deadline.at)))
      ensures forall t :: t in old(tasks) && old(t.joinHeld) && t !in deferred[|old(deferred)|..] ==>
        EndsBy(t.End(), clock.now)
      ensures deferred != old(deferred) ==> clock.now >= deadline.at
      ensures forall t :: t in deferred[|old(deferred)|..] ==> old(t.joinHeld) && old(TooLate(t, deadline, clock.now))
      ensures old(clock.now) <= clock.now <= Max(old(clock.now), deadline.at)
    {
      closed := true;
      var taken := tasks;
      tasks := [];
      var pending := AwaitOrAbort(taken, deadline, clock);
      completed := pending == [];
      assert forall k :: 0 <= k < |pending| ==> pending[k] in old(tasks);
      Defer(pending);
      assert deferred[|old(deferred)|..] == pending;
    }
  }
}
