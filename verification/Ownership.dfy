/**
 * Ownership of a spawned child: a guard holds it until it is reaped or handed
 * to the background reaper; over every run it is in exactly one place.
 */
module Ownership {
  import opened Common
  import opened Cleanup
  import Sweeps

  const CLEANUP_GRACE: nat := 500_000_000
  const EXPLICIT_TERMINATION_GRACE: nat := 2_000_000_000

  function ExplicitTerminationGrace(deadline: nat, now: nat): nat {
    Min(Max(0, deadline - now), EXPLICIT_TERMINATION_GRACE)
  }

  class ReaperQueue {
    var pending: seq<Child>

    constructor ()
      ensures pending == []
    {
      pending := [];
    }

    method Enqueue(child: Child)
      modifies this
      ensures pending == old(pending) + [child]
    {
      pending := pending + [child];
    }

    method TakeAll() returns (batch: seq<Child>)
      modifies this
      ensures batch == old(pending) && pending == []
    {
      batch := pending;
      pending := [];
    }
  }

  /** A `source` of `None` stands for the timeout error made up when cleanup met no other. */
  datatype GuardResult =
    | Output(status: int)
    | Running
    | TimedOut(status: int, cleanupError: Option<Error>)
    | IoFailed(source: Error, secondary: Option<Error>, status: int)
    | CleanupDeferred(deferredSource: Option<Error>, deferredSecondary: Option<Error>)
    | Missing

  /** The child answered one of the polls made so far with this exit status. */
  ghost predicate ExitSeen(child: Child, from: nat, status: int)
    reads child
  {
    exists k :: from <= k < child.polls && child.pollAnswers(k) == Exited(status)
  }

  /** The most recent error of a cleanup that found the child killed and polled so often. */
  ghost predicate LastErrorIs(child: Child, kills: nat, polls: nat, error: Option<Error>)
    reads child
  {
    exists trace ::
      Legal(trace, child, kills, polls) && LeadsTo(trace, child, kills, polls) && LastError(trace) == error
  }

  ghost predicate LeadsTo(trace: seq<Event>, child: Child, kills: nat, polls: nat)
    reads child
  {
    child.kills == kills + Kills(trace) && child.polls == polls + Polls(trace)
  }

  ghost predicate RunningUntil(child: Child, from: nat, k: nat) {
    forall j :: from <= j < k ==> child.pollAnswers(j).StillRunning?
  }

  /** What one answer to a poll makes of a guard's call; `over` says that a child still running is given up. */
  predicate Follows(answer: PollAnswer, r: GuardResult, over: bool) {
    match answer
    case Exited(status) => r == Output(status)
    case PollFailed(error) =>
      (r.IoFailed? && r.source == error) || (r.CleanupDeferred? && r.deferredSource == Some(error))
    case StillRunning => over && (r.TimedOut? || r.CleanupDeferred?)
  }

  /** Poll `k` is the first with news, or the last before the deadline ended the wait. */
  ghost predicate WaitedFor(child: Child, from: nat, k: nat, r: GuardResult, now: nat, deadline: nat)
    reads child
  {
    from <= k < child.polls && RunningUntil(child, from, k) && Follows(child.pollAnswers(k), r, now >= deadline)
  }

  /** The error of the cleanup that follows poll `k` goes where the result has room for it. */
  ghost predicate CleanupReported(child: Child, kills: nat, k: nat, r: GuardResult)
    reads child
  {
    match child.pollAnswers(k)
    case Exited(_) => child.kills == kills
    case PollFailed(_) =>
      && (r.IoFailed? ==> LastErrorIs(child, kills, k + 1, r.secondary))
      && (r.CleanupDeferred? ==> LastErrorIs(child, kills, k + 1, r.deferredSecondary))
    case StillRunning =>
      && (r.TimedOut? ==> LastErrorIs(child, kills, k + 1, r.cleanupError))
      && (r.CleanupDeferred? ==> LastErrorIs(child, kills, k + 1, r.deferredSource))
  }

  class ChildGuard {
    var child: Child?
    const reaper: ReaperQueue
    const deadline: nat

    constructor (child: Child, reaper: ReaperQueue, deadline: nat)
      ensures this.child == child && this.reaper == reaper && this.deadline == deadline
    {
      this.child, this.reaper, this.deadline := child, reaper, deadline;
    }

    /** What the guard has let go of is reaped or queued, and nothing else changes hands. */
    twostate predicate HandedOver(outcome: Outcome)
      reads this, reaper
    {
      && child == null
      && old(child) != null
      && reaper.pending == old(reaper.pending) + (if outcome.Deferred? then [old(child)] else [])
    }

    /** Bounded cleanup of the held child, then release to the one place the outcome says. */
    method CleanUp(grace: nat, clock: Clock) returns (outcome: Outcome)
      requires child != null
      modifies this, child, reaper, clock
      ensures HandedOver(outcome)
      ensures outcome.Reaped? ==> ExitSeen(old(child), old(child.polls), outcome.status)
      ensures old(child.polls) < old(child).polls
      ensures outcome.Deferred? ==> clock.now >= Deadline(old(clock.now), grace)
      ensures outcome.Reaped? <==> ExitsWithin(old(child), old(child.polls), old(clock.now), grace)
      ensures LastErrorIs(old(child), old(child.kills), old(child.polls), outcome.lastError)
      ensures outcome.Deferred? && Fits(old(clock.now), grace) ==> clock.now == old(clock.now) + grace
      ensures old(clock.now) <= clock.now <= old(clock.now) + grace
    {
      var held := child;
      ghost var trace;
      outcome, trace := BoundedCleanup(held, grace, clock);
      ghost var n := |trace| - 1;
      assert Legal(trace, held, old(held.kills), old(held.polls));
      assert LeadsTo(trace, held, old(held.kills), old(held.polls));
      assert Polls(trace) == Polls(trace[..n]) + 1;
      assert trace[n].poll == held.pollAnswers(old(held.polls) + Polls(trace[..n]));
      child := null;
      if outcome.Deferred? {
        reaper.Enqueue(held);
      }
    }

    method Terminate(clock: Clock) returns (r: GuardResult)
      modifies this, child, reaper, clock
      ensures child == null
      ensures old(child) == null ==> r == Missing && reaper.pending == old(reaper.pending)
      ensures old(child) != null ==>
        && (r.Output? || r.IoFailed? || r.CleanupDeferred?)
        && reaper.pending == old(reaper.pending) + (if r.CleanupDeferred? then [old(child)] else [])
        && (!r.CleanupDeferred? ==> ExitSeen(old(child), old(child.polls), r.status))
      ensures r.CleanupDeferred? ==>
        clock.now >= Deadline(old(clock.now), ExplicitTerminationGrace(deadline, old(clock.now)))
      ensures r.CleanupDeferred? && Fits(old(clock.now), EXPLICIT_TERMINATION_GRACE) ==>
        clock.now >= deadline || clock.now == old(clock.now) + EXPLICIT_TERMINATION_GRACE
      ensures old(child) != null ==>
        (r.CleanupDeferred? <==> !ExitsWithin(old(child), old(child.polls), old(clock.now),
                                              ExplicitTerminationGrace(deadline, old(clock.now))))
      ensures old(child) != null ==>
        && (r.Output? ==> LastErrorIs(old(child), old(child.kills), old(child.polls), None))
        && (r.IoFailed? ==>
              r.secondary.None? && LastErrorIs(old(child), old(child.kills), old(child.polls), Some(r.source)))
        && (r.CleanupDeferred? ==>
              LastErrorIs(old(child), old(child.kills), old(child.polls), r.deferredSource))
      ensures clock.now <= old(clock.now) + EXPLICIT_TERMINATION_GRACE
      ensures clock.now <= Max(old(clock.now), deadline)
    {
      var grace := ExplicitTerminationGrace(deadline, clock.now);
      if child == null {
        return Missing;
      }
      var outcome := CleanUp(grace, clock);
      match outcome {
        case Reaped(status, None) => r := Output(status);
        case Reaped(status, Some(error)) => r := IoFailed(error, None, status);
        case Deferred(lastError) => r := CleanupDeferred(lastError, None);
      }
    }

    method TerminateAfterTimeout(clock: Clock) returns (r: GuardResult)
      requires child != null
      modifies this, child, reaper, clock
      ensures child == null
      ensures r.TimedOut? || r.CleanupDeferred?
      ensures reaper.pending == old(reaper.pending) + (if r.CleanupDeferred? then [old(child)] else [])
      ensures r.TimedOut? ==> ExitSeen(old(child), old(child.polls), r.status)
      ensures r.TimedOut? ==> LastErrorIs(old(child), old(child.kills), old(child.polls), r.cleanupError)
      ensures r.CleanupDeferred? ==> LastErrorIs(old(child), old(child.kills), old(child.polls), r.deferredSource)
      ensures old(child.polls) <= old(child).polls
      ensures r.CleanupDeferred? ==> clock.now >= Deadline(old(clock.now), CLEANUP_GRACE)
      ensures r.CleanupDeferred? <==> !ExitsWithin(old(child), old(child.polls), old(clock.now), CLEANUP_GRACE)
      ensures r.CleanupDeferred? && Fits(old(clock.now), CLEANUP_GRACE) ==> clock.now == old(clock.now) + CLEANUP_GRACE
      ensures old(clock.now) <= clock.now <= old(clock.now) + CLEANUP_GRACE
    {
      var outcome := CleanUp(CLEANUP_GRACE, clock);
      match outcome {
        case Reaped(status, lastError) => r := TimedOut(status, lastError);
        case Deferred(lastError) => r := CleanupDeferred(lastError, None);
      }
    }

    method TerminateAfterObservationError(error: Error, clock: Clock) returns (r: GuardResult)
      requires child != null
      modifies this, child, reaper, clock
      ensures child == null
      ensures r.IoFailed? || r.CleanupDeferred?
      ensures r.IoFailed? ==> r.source == error && ExitSeen(old(child), old(child.polls), r.status)
      ensures r.CleanupDeferred? ==> r.deferredSource == Some(error)
      ensures r.IoFailed? ==> LastErrorIs(old(child), old(child.kills), old(child.polls), r.secondary)
      ensures r.CleanupDeferred? ==> LastErrorIs(old(child), old(child.kills), old(child.polls), r.deferredSecondary)
      ensures reaper.pending == old(reaper.pending) + (if r.CleanupDeferred? then [old(child)] else [])
      ensures old(child.polls) <= old(child).polls
      ensures r.CleanupDeferred? ==> clock.now >= Deadline(old(clock.now), CLEANUP_GRACE)
      ensures r.CleanupDeferred? <==> !ExitsWithin(old(child), old(child.polls), old(clock.now), CLEANUP_GRACE)
      ensures r.CleanupDeferred? && Fits(old(clock.now), CLEANUP_GRACE) ==> clock.now == old(clock.now) + CLEANUP_GRACE
      ensures old(clock.now) <= clock.now <= old(clock.now) + CLEANUP_GRACE
    {
      var outcome := CleanUp(CLEANUP_GRACE, clock);
      match outcome {
        case Reaped(status, lastError) => r := IoFailed(error, lastError, status);
        case Deferred(lastError) => r := CleanupDeferred(Some(error), lastError);
      }
    }

    /**
     * Waits for the child, at most until the deadline and then for one
     * cleanup period. The first poll that does not find it running decides
     * the result, and without one only the deadline ends the wait. Afterwards
     * the guard is empty: the child is reaped, and its exit was observed, or
     * it is the last of the reaper's queue. A child whose exit was awaited is
     * not killed.
     */
    method Wait(clock: Clock) returns (r: GuardResult)
      modifies this, child, reaper, clock
      ensures child == null
      ensures old(child) == null ==> r == Missing && reaper.pending == old(reaper.pending)
      ensures old(child) != null ==>
        && (r.Output? || r.TimedOut? || r.IoFailed? || r.CleanupDeferred?)
        && reaper.pending == old(reaper.pending) + (if r.CleanupDeferred? then [old(child)] else [])
        && (!r.CleanupDeferred? ==> ExitSeen(old(child), old(child.polls), r.status))
      ensures old(child) != null ==>
        exists k ::
          && WaitedFor(old(child), old(child.polls), k, r, clock.now, deadline)
          && CleanupReported(old(child), old(child.kills), k, r)
      ensures old(child) != null && r.Output? ==> old(child).kills == old(child.kills)
      ensures r.TimedOut? ==> clock.now >= deadline
      ensures clock.now <= Max(old(clock.now), deadline) + CLEANUP_GRACE
    {
      if child == null {
        return Missing;
      }
      var held := child;
      var poll := PollUntilNews(held, clock);
      ghost var kills, polls := held.kills, held.polls;
      match poll {
        case Exited(status) =>
          child := null;
          r := Output(status);
        case StillRunning =>
          r := TerminateAfterTimeout(clock);
          assert r.TimedOut? ==> ExitSeen(held, polls, r.status);
        case PollFailed(error) =>
          r := TerminateAfterObservationError(error, clock);
          assert r.IoFailed? ==> ExitSeen(held, polls, r.status);
      }
      assert WaitedFor(held, old(held.polls), polls - 1, r, clock.now, deadline);
      assert CleanupReported(held, kills, polls - 1, r);
    }

    /** Polls until there is news of the child, or the deadline has come. */
    method PollUntilNews(held: Child, clock: Clock) returns (poll: PollAnswer)
      modifies held`polls, clock
      ensures old(held.polls) < held.polls && RunningUntil(held, old(held.polls), held.polls - 1)
      ensures poll == held.pollAnswers(held.polls - 1)
      ensures poll.StillRunning? ==> clock.now >= deadline
      ensures old(clock.now) <= clock.now <= Max(old(clock.now), deadline)
    {
      while true
        invariant old(held.polls) <= held.polls && RunningUntil(held, old(held.polls), held.polls)
        invariant old(clock.now) <= clock.now <= Max(old(clock.now), deadline)
        decreases deadline - clock.now
      {
        poll := held.TryWait();
        if !poll.StillRunning? || clock.now >= deadline {
          return;
        }
        clock.SleepFor(Min(deadline - clock.now, POLL_INTERVAL));
      }
    }

    /** Polls once; the guard keeps the child exactly while it is still running. */
    method TryWait(clock: Clock) returns (r: GuardResult)
      modifies this, child, reaper, clock
      ensures old(child) == null ==> r == Missing && child == null && reaper.pending == old(reaper.pending)
      ensures old(child) != null ==>
        && (r.Running? || r.Output? || r.IoFailed? || r.CleanupDeferred?)
        && (r.Running? <==> old(child.pollAnswers(child.polls)).StillRunning?)
        && (!r.Running? ==> Follows(old(child.pollAnswers(child.polls)), r, false))
        && (r.Running? || r.Output? ==> old(child).kills == old(child.kills))
        && CleanupReported(old(child), old(child.kills), old(child.polls), r)
        && child == (if r.Running? then old(child) else null)
        && reaper.pending == old(reaper.pending) + (if r.CleanupDeferred? then [old(child)] else [])
        && (r.Output? || r.IoFailed? ==> ExitSeen(old(child), old(child.polls), r.status))
    {
      if child == null {
        return Missing;
      }
      var held := child;
      var poll := held.TryWait();
      match poll {
        case Exited(status) =>
          child := null;
          assert held.pollAnswers(held.polls - 1) == Exited(status);
          r := Output(status);
        case StillRunning => r := Running;
        case PollFailed(error) =>
          ghost var polls := held.polls;
          r := TerminateAfterObservationError(error, clock);
          assert r.IoFailed? ==> ExitSeen(held, polls, r.status);
      }
    }

    method Drop(clock: Clock) returns (ghost deferred: bool)
      modifies this, child, reaper, clock
      ensures child == null
      ensures old(child) == null ==> !deferred
      ensures reaper.pending == old(reaper.pending) + (if deferred then [old(child)] else [])
      ensures old(child) != null && !deferred ==>
        exists status :: ExitSeen(old(child), old(child.polls), status)
      ensures deferred ==> clock.now >= Deadline(old(clock.now), CLEANUP_GRACE)
      ensures old(child) != null ==>
        (deferred <==> !ExitsWithin(old(child), old(child.polls), old(clock.now), CLEANUP_GRACE))
      ensures deferred && Fits(old(clock.now), CLEANUP_GRACE) ==> clock.now == old(clock.now) + CLEANUP_GRACE
      ensures clock.now <= old(clock.now) + CLEANUP_GRACE
    {
      deferred := false;
      if child != null {
        var outcome := CleanUp(CLEANUP_GRACE, clock);
        deferred := outcome.Deferred?;
      }
    }
  }

  // ----- The background reaper -----

  /** How often each child had been polled and killed before a pass, and which will answer with an exit. */
  datatype Before = Before(polls: map<Child, nat>, kills: map<Child, nat>, exited: set<Child>)

  /** Those asked in this pass have been polled once more, and killed once more unless they had exited. */
  ghost predicate Book(asked: set<Child>, before: Before)
    reads before.polls.Keys
  {
    && before.kills.Keys == before.polls.Keys
    && forall c :: c in before.polls ==>
         && (c in before.exited <==> c.pollAnswers(before.polls[c]).Exited?)
         && c.polls == before.polls[c] + (if c in asked then 1 else 0)
         && c.kills == before.kills[c] + if c in asked && c !in before.exited then 1 else 0
  }

  method PollOrKill(child: Child, ghost asked: set<Child>, ghost before: Before) returns (exit: bool)
    requires child in before.polls && child !in asked && Book(asked, before)
    modifies child
    ensures Book(asked + {child}, before)
    ensures exit == (child in before.exited)
  {
    var poll := child.TryWait();
    exit := poll.Exited?;
    if !exit {
      var _ := child.KillNow();
    }
  }

  ghost function Snapshot(children: seq<Child>): (before: Before)
    reads children
    ensures before.polls.Keys == Elements(children) && Book({}, before)
  {
    Before(
      map c | c in children :: c.polls, map c | c in children :: c.kills,
      set c | c in children && c.pollAnswers(c.polls).Exited?)
  }

  ghost function Elements(children: seq<Child>): set<Child> {
    set c | c in children
  }

  lemma OneMore(start: seq<Child>, index: nat)
    requires Distinct(start) && index < |start|
    ensures start[index] !in Elements(start[index + 1..]) && start[index] in Elements(start)
    ensures Elements(start[index..]) == Elements(start[index + 1..]) + {start[index]}
  {
    assert start[index..] == [start[index]] + start[index + 1..];
  }

  /**
   * Polls every child once, from the last to the first. Those that have
   * exited leave the list; all others are killed again and stay.
   */
  method ReaperPass(start: seq<Child>) returns (active: seq<Child>, ghost polled: seq<Child>)
    requires Distinct(start)
    modifies start
    ensures Book(Elements(start), old(Snapshot(start)))
    ensures polled == Sweeps.Reversed(start)
    ensures multiset(active) == multiset(Sweeps.Filtered(polled, old(Snapshot(start)).exited, false))
    ensures multiset(active) + multiset(Sweeps.Filtered(polled, old(Snapshot(start)).exited, true)) == multiset(start)
  {
    ghost var before := Snapshot(start);
    polled := [];
    active := start;
    var index := |active|;
    Sweeps.PassStarts(start, before.exited);
    assert Elements(start[index..]) == {};
    while index > 0
      invariant 0 <= index <= |start| && Sweeps.PassedTo(start, active, index, polled, before.exited)
      invariant Book(Elements(start[index..]), before)
    {
      index := index - 1;
      Sweeps.PassStep(start, active, index, polled, before.exited);
      OneMore(start, index);
      var child := active[index];
      var exit := PollOrKill(child, Elements(start[index + 1..]), before);
      polled := polled + [child];
      if exit {
        active := Sweeps.SwapRemove(active, index);
      }
    }
    assert start[0..] == start;
    Sweeps.PassEnds(start, active, polled, before.exited);
  }

  // ----- The whole system -----

  /** One of the polls made saw the child's exit. */
  ghost predicate Exits(child: Child)
    reads child
  {
    exists k :: 0 <= k < child.polls && child.pollAnswers(k).Exited?
  }

  ghost predicate AllExit(children: seq<Child>)
    reads children
  {
    forall i :: 0 <= i < |children| ==> Exits(children[i])
  }

  lemma DistinctByCount<T>(s: seq<T>, all: set<T>)
    requires forall x :: multiset(s)[x] <= if x in all then 1 else 0
    ensures Distinct(s)
  {
    forall i, j | 0 <= i < j < |s|
      ensures s[i] != s[j]
    {
      if s[i] == s[j] {
        CountedTwice(s, i, j);
        assert false;
      }
    }
  }

  lemma CountedTwice<T>(s: seq<T>, i: nat, j: nat)
    requires i < j < |s| && s[i] == s[j]
    ensures multiset(s)[s[i]] >= 2
  {
    assert s == s[..j] + s[j..];
    assert s[..j][i] == s[i] && s[j..][0] == s[i];
  }

  datatype Call =
    | Spawn(killAnswers: nat -> KillAnswer, pollAnswers: nat -> PollAnswer, deadline: nat)
    | CallWait(guard: nat)
    | CallTryWait(guard: nat)
    | CallTerminate(guard: nat)
    | CallDrop(guard: nat)
    | ReaperRound

  /** Where children are: with a guard, queued for the reaper, polled by it, or reaped. */
  datatype Places = Places(held: set<Child>, pending: seq<Child>, active: seq<Child>, reaped: seq<Child>)

  ghost function Everywhere(p: Places): multiset<Child> {
    multiset(p.held) + multiset(p.pending) + multiset(p.active) + multiset(p.reaped)
  }

  /** Each spawned child is in exactly one place, once, and no other child is anywhere. */
  ghost predicate InOnePlace(p: Places, spawned: set<Child>) {
    Everywhere(p) == multiset(spawned)
  }

  lemma OnlyOnce(p: Places, spawned: set<Child>, c: Child)
    requires InOnePlace(p, spawned)
    requires c in p.held || c in p.pending || c in p.active
    ensures c !in p.reaped && c in spawned
  {
    assert multiset(spawned)[c] <= 1;
    assert Everywhere(p)[c]
        == multiset(p.held)[c] + multiset(p.pending)[c] + multiset(p.active)[c] + multiset(p.reaped)[c];
  }

  lemma ReapedAreElsewhere(p: Places, spawned: set<Child>)
    requires InOnePlace(p, spawned)
    ensures forall i :: 0 <= i < |p.reaped| ==> p.reaped[i] !in p.active + p.pending
  {
    forall i | 0 <= i < |p.reaped|
      ensures p.reaped[i] !in p.active + p.pending
    {
      if p.reaped[i] in p.active + p.pending {
        OnlyOnce(p, spawned, p.reaped[i]);
        assert false;
      }
    }
  }

  lemma ActiveIsDistinct(p: Places, spawned: set<Child>)
    requires InOnePlace(p, spawned)
    ensures Distinct(p.pending + p.active) && Distinct(p.active + p.pending)
  {
    forall x
      ensures multiset(p.active + p.pending)[x] <= if x in spawned then 1 else 0
    {
      assert Everywhere(p)[x] == multiset(spawned)[x];
    }
    assert multiset(p.pending + p.active) == multiset(p.active + p.pending);
    DistinctByCount(p.active + p.pending, spawned);
    DistinctByCount(p.pending + p.active, spawned);
  }

  /** In one place each, and the reaped ones were seen to exit. */
  ghost predicate Accounted(p: Places, spawned: set<Child>)
    reads p.reaped
  {
    InOnePlace(p, spawned) && AllExit(p.reaped)
  }

  /** Everything that is held, queued or active was spawned. */
  lemma Known(p: Places, spawned: set<Child>)
    requires InOnePlace(p, spawned)
    ensures p.held <= spawned
    ensures forall i :: 0 <= i < |p.pending| ==> p.pending[i] in spawned
    ensures forall i :: 0 <= i < |p.active| ==> p.active[i] in spawned
  {
    forall c | c in p.held || c in p.pending || c in p.active
      ensures c in spawned
    {
      OnlyOnce(p, spawned, c);
    }
  }

  lemma Spawned(p: Places, spawned: set<Child>, child: Child)
    requires Accounted(p, spawned) && child !in spawned
    ensures child !in p.held && Accounted(p.(held := p.held + {child}), spawned + {child})
  {
    if child in p.held {
      OnlyOnce(p, spawned, child);
      assert false;
    }
    assert multiset(p.held + {child}) == multiset(p.held) + multiset{child};
    assert multiset(spawned + {child}) == multiset(spawned) + multiset{child};
  }

  /** A guard's child goes to the queue or is reaped. */
  function Gone(p: Places, child: Child, deferred: bool): Places {
    if deferred then p.(held := p.held - {child}, pending := p.pending + [child])
    else p.(held := p.held - {child}, reaped := p.reaped + [child])
  }

  lemma GoesTo(p: Places, spawned: set<Child>, child: Child, deferred: bool)
    requires Accounted(p, spawned) && child in p.held && (!deferred ==> Exits(child))
    ensures Accounted(Gone(p, child, deferred), spawned)
  {
    assert multiset(p.held) == multiset(p.held - {child}) + multiset{child};
  }

  /** A round empties the queue and splits what the reaper then has. */
  lemma Polled(p: Places, spawned: set<Child>, active: seq<Child>, dead: seq<Child>)
    requires Accounted(p, spawned) && AllExit(dead)
    requires multiset(active) + multiset(dead) == multiset(p.active + p.pending)
    ensures Accounted(Places(p.held, [], active, p.reaped + dead), spawned)
  {
    var none: seq<Child> := [];
    assert multiset(none) == multiset{};
    assert multiset(p.active + p.pending) == multiset(p.active) + multiset(p.pending);
    assert multiset(p.reaped + dead) == multiset(p.reaped) + multiset(dead);
    Regroup(multiset(p.held), multiset(p.pending), multiset(p.active), multiset(p.reaped),
            multiset(active), multiset(dead));
  }

  lemma ChosenExit(dead: seq<Child>, exited: set<Child>)
    requires forall i :: 0 <= i < |dead| ==> (dead[i] in exited) == true
    requires forall c :: c in exited ==> Exits(c)
    ensures AllExit(dead)
  {
  }

  lemma Regroup(
      held: multiset<Child>, pending: multiset<Child>, active: multiset<Child>, reaped: multiset<Child>,
      left: multiset<Child>, dead: multiset<Child>)
    requires left + dead == active + pending
    ensures held + pending + active + reaped == held + multiset{} + left + (reaped + dead)
  {
    assert held + pending + active + reaped == held + (active + pending) + reaped;
  }

  /** The guards of a process. They share the reaper's queue, and no child has two of them. */
  class Guards {
    const queue: ReaperQueue
    const clock: Clock
    var guards: seq<ChildGuard>
    /** Which guard holds a child. */
    ghost var owner: map<Child, nat>

    constructor (queue: ReaperQueue, clock: Clock)
      ensures Owned() && guards == [] && owner == map[] && this.queue == queue && this.clock == clock
    {
      this.queue, this.clock, guards, owner := queue, clock, [], map[];
    }

    ghost predicate Holds(i: nat)
      requires i < |guards|
      reads this, guards
    {
      && guards[i].reaper == queue
      && (guards[i].child != null ==> guards[i].child in owner && owner[guards[i].child] == i)
    }

    /** The guards are distinct and hold what `owner` says. */
    ghost predicate Owned()
      reads this, guards
    {
      && (forall i, j :: 0 <= i < j < |guards| ==> guards[i] != guards[j])
      && (forall i :: 0 <= i < |guards| ==> Holds(i))
      && (forall c :: c in owner ==> owner[c] < |guards| && guards[owner[c]].child == c)
    }

    method Add(child: Child, deadline: nat)
      requires Owned() && child !in owner
      modifies this
      ensures Owned() && |guards| == |old(guards)| + 1
      ensures old(guards) <= guards
      ensures fresh(guards[|old(guards)|]) && owner == old(owner)[child := |old(guards)|]
      ensures guards[|old(guards)|].child == child && guards[|old(guards)|].deadline == deadline
    {
      var guard := new ChildGuard(child, queue, deadline);
      owner := owner[child := |guards|];
      guards := guards + [guard];
      forall j | 0 <= j < |guards|
        ensures Holds(j)
      {
        if j < |old(guards)| {
          assert guards[j] == old(guards)[j] && old(Holds(j));
          assert guards[j].child == old(guards[j].child);
        }
      }
    }

    /** One call of a guard; afterwards it still has its running child, or is empty. */
    method Use(call: Call) returns (kept: bool, ghost deferred: bool)
      requires Owned() && (call.CallWait? || call.CallTryWait? || call.CallTerminate? || call.CallDrop?)
      requires call.guard < |guards| && guards[call.guard].child != null
      modifies this`owner, guards[call.guard], guards[call.guard].child, queue, clock
      ensures Owned()
      ensures old(guards[call.guard].child) in old(owner)
      ensures old(owner)[old(guards[call.guard].child)] == call.guard
      ensures call.CallTryWait? ==>
        (kept <==> old(guards[call.guard].child.pollAnswers(guards[call.guard].child.polls)).StillRunning?)
      ensures kept ==> call.CallTryWait? && owner == old(owner) && queue.pending == old(queue.pending)
      ensures !kept ==> owner == old(owner) - {old(guards[call.guard].child)}
      ensures !kept ==>
        queue.pending == old(queue.pending) + if deferred then [old(guards[call.guard].child)] else []
      ensures !kept && !deferred ==> Exits(old(guards[call.guard].child))
    {
      var guard := guards[call.guard];
      ghost var child := guard.child;
      assert Holds(call.guard);
      assert forall j :: 0 <= j < |guards| && j != call.guard ==> guards[j] != guard;
      kept, deferred := Called(guard, call);
      if !kept {
        owner := owner - {child};
      }
      forall j | 0 <= j < |guards|
        ensures Holds(j)
      {
        assert old(Holds(j));
      }
    }

    /** The call itself; what it promises is what every guard method promises. */
    method Called(guard: ChildGuard, call: Call) returns (kept: bool, ghost deferred: bool)
      requires guard.child != null && guard.reaper == queue
      requires call.CallWait? || call.CallTryWait? || call.CallTerminate? || call.CallDrop?
      modifies guard, guard.child, queue, clock
      ensures kept ==> call.CallTryWait? && guard.child == old(guard.child) && queue.pending == old(queue.pending)
      ensures call.CallTryWait? ==> (kept <==> old(guard.child.pollAnswers(guard.child.polls)).StillRunning?)
      ensures !kept ==> guard.child == null
      ensures !kept ==> queue.pending == old(queue.pending) + if deferred then [old(guard.child)] else []
      ensures !kept && !deferred ==> Exits(old(guard.child))
    {
      kept := false;
      ghost var child, from := guard.child, guard.child.polls;
      match call {
        case CallWait(_) =>
          var r := guard.Wait(clock);
          deferred := r.CleanupDeferred?;
          assert !deferred ==> ExitSeen(child, from, r.status);
        case CallTerminate(_) =>
          var r := guard.Terminate(clock);
          deferred := r.CleanupDeferred?;
          assert !deferred ==> ExitSeen(child, from, r.status);
        case CallDrop(_) =>
          deferred := guard.Drop(clock);
        case CallTryWait(_) =>
          var r := guard.TryWait(clock);
          kept, deferred := r.Running?, r.CleanupDeferred?;
          assert !kept && !deferred ==> ExitSeen(child, from, r.status);
      }
    }
  }

  /** Those whose next poll sees an exit, in the order in which a pass polls them. */
  ghost function Dying(children: seq<Child>, exited: set<Child>): seq<Child> {
    Sweeps.Filtered(Sweeps.Reversed(children), exited, true)
  }

  /** A pass splits its list into those that stay and the dying, which have been seen to exit. */
  method PassOver(all: seq<Child>) returns (left: seq<Child>, ghost exited: set<Child>)
    requires Distinct(all)
    modifies all
    ensures forall c :: c in all ==> (c in exited <==> old(c.pollAnswers(c.polls)).Exited?)
    ensures AllExit(Dying(all, exited)) && multiset(left) + multiset(Dying(all, exited)) == multiset(all)
  {
    exited := Snapshot(all).exited;
    ghost var polled;
    left, polled := ReaperPass(all);
    ChosenExit(Dying(all, exited), exited);
  }

  /** Where every child is, who holds it, and how many guards there are. */
  datatype View = View(places: Places, spawned: set<Child>, owner: map<Child, nat>, guards: nat)

  /** What came of a call: a new child, a child that is still running, one let go, or the children that had exited. */
  datatype News = Nothing | Born(child: Child) | Kept | LetGo(child: Child, deferred: bool) | Round(exited: set<Child>)

  ghost predicate IsHolding(v: View, guard: nat) {
    exists c :: c in v.owner && v.owner[c] == guard
  }

  /** What each call does to the whole process. */
  ghost predicate Step(call: Call, news: News, v: View, w: View) {
    match call
    case Spawn(_, _, _) =>
      && news.Born? && news.child !in v.spawned
      && w == View(v.places.(held := v.places.held + {news.child}), v.spawned + {news.child},
                   v.owner[news.child := v.guards], v.guards + 1)
    case ReaperRound => news.Round? && RoundStep(news.exited, v, w)
    case _ =>
      if !IsHolding(v, call.guard) then news == Nothing && w == v
      else GuardStep(call, news, v, w)
  }

  /** A wait, a termination and a drop let the child go; a look lets it go unless it is still running. */
  ghost predicate GuardStep(call: Call, news: News, v: View, w: View)
    requires call.CallWait? || call.CallTryWait? || call.CallTerminate? || call.CallDrop?
  {
    if news == Kept then call.CallTryWait? && w == v
    else
      && news.LetGo? && news.child in v.owner && v.owner[news.child] == call.guard
      && w == v.(places := Gone(v.places, news.child, news.deferred), owner := v.owner - {news.child})
  }

  /** The reaper takes the queue, and of all it then has the dying are reaped. */
  ghost predicate RoundStep(exited: set<Child>, v: View, w: View) {
    var all := v.places.active + v.places.pending;
    && w == v.(places := Places(v.places.held, [], w.places.active, v.places.reaped + Dying(all, exited)))
    && multiset(w.places.active) + multiset(Dying(all, exited)) == multiset(all)
  }

  /** The spawns among the first `k` calls. */
  function Spawns(calls: seq<Call>, k: nat): nat
    requires k <= |calls|
  {
    if k == 0 then 0 else Spawns(calls, k - 1) + if calls[k - 1].Spawn? then 1 else 0
  }

  /** A view of the process, and what came of the calls that led to it. */
  datatype Log = Start(last: View) | After(before: Log, news: News, last: View)

  /** The log starts at a view, and each of the first `k` calls has done what its step says. */
  ghost predicate Tells(log: Log, first: View, calls: seq<Call>, k: nat)
    requires k <= |calls|
  {
    match log
    case Start(last) => k == 0 && last == first
    case After(before, news, last) =>
      k > 0 && Tells(before, first, calls, k - 1) && Step(calls[k - 1], news, before.last, last)
  }

  /** Every spawn adds one child and one guard, and nothing else adds any. */
  lemma {:induction false} EverySpawnCounts(log: Log, first: View, calls: seq<Call>, k: nat)
    requires k <= |calls| && Tells(log, first, calls, k)
    ensures log.last.guards == first.guards + Spawns(calls, k)
    ensures |log.last.spawned| == |first.spawned| + Spawns(calls, k) && first.spawned <= log.last.spawned
  {
    if log.After? {
      EverySpawnCounts(log.before, first, calls, k - 1);
      StepSpawns(calls[k - 1], log.news, log.before.last, log.last);
    }
  }

  lemma StepSpawns(call: Call, news: News, v: View, w: View)
    requires Step(call, news, v, w)
    ensures w.guards == v.guards + if call.Spawn? then 1 else 0
    ensures |w.spawned| == |v.spawned| + (if call.Spawn? then 1 else 0) && v.spawned <= w.spawned
  {
  }

  /** All guards of a process, the reaper's queue and what the reaper has taken from it. */
  class Processes {
    const table: Guards
    const queue: ReaperQueue
    var active: seq<Child>
    ghost var spawned: set<Child>
    ghost var places: Places

    constructor (start: nat)
      ensures Valid() && spawned == {} && table.guards == []
      ensures fresh(table) && fresh(queue) && fresh(table.clock)
    {
      var shared := new ReaperQueue();
      var clock := new Clock(start);
      queue := shared;
      table := new Guards(shared, clock);
      active, spawned, places := [], {}, Places({}, [], [], []);
    }

    /** `places` says where children are. */
    ghost predicate Mirrors()
      reads this, table, queue
    {
      && table.queue == queue
      && places.held == table.owner.Keys && places.pending == queue.pending && places.active == active
    }

    /** Every child is in one place, and a reaped one was seen to exit. */
    ghost predicate Valid()
      reads this, table, table.guards, queue, places.reaped
    {
      table.Owned() && Mirrors() && Accounted(places, spawned)
    }

    ghost function Here(): View
      reads this, table
    {
      View(places, spawned, table.owner, |table.guards|)
    }

    /** The new child is held by the new guard. */
    method SpawnChild(killAnswers: nat -> KillAnswer, pollAnswers: nat -> PollAnswer, deadline: nat)
      returns (ghost child: Child)
      requires Valid()
      modifies this`spawned, this`places, table
      ensures Valid() && |table.guards| == |old(table.guards)| + 1
      ensures old(table.guards) <= table.guards
      ensures fresh(table.guards[|old(table.guards)|]) && fresh(child)
      ensures table.guards[|old(table.guards)|].child == child
      ensures table.guards[|old(table.guards)|].deadline == deadline
      ensures child.killAnswers == killAnswers && child.pollAnswers == pollAnswers && child.polls == child.kills == 0
      ensures child !in old(spawned)
      ensures Here() == View(old(places).(held := old(places).held + {child}), old(spawned) + {child},
                             old(table.owner)[child := |old(table.guards)|], |old(table.guards)| + 1)
    {
      var created := new Child(killAnswers, pollAnswers);
      child := created;
      Spawned(places, spawned, child);
      table.Add(created, deadline);
      places := places.(held := places.held + {child});
      spawned := spawned + {child};
    }

    /**
     * One call of a guard that holds a child. Afterwards the child is with
     * the guard and still running, was reaped, or is the last in the queue.
     */
    method CallGuard(call: Call) returns (kept: bool, ghost child: Child, ghost deferred: bool)
      requires Valid() && (call.CallWait? || call.CallTryWait? || call.CallTerminate? || call.CallDrop?)
      requires call.guard < |table.guards| && table.guards[call.guard].child != null
      modifies this`places, table`owner, table.guards, table.guards[call.guard].child, queue, table.clock
      ensures Valid() && (kept ==> call.CallTryWait? && places == old(places))
      ensures child == old(table.guards[call.guard].child)
      ensures child in old(table.owner) && old(table.owner)[child] == call.guard
      ensures kept ==> table.owner == old(table.owner)
      ensures !kept ==> table.owner == old(table.owner) - {child}
      ensures call.CallTryWait? ==> (kept <==> child.pollAnswers(old(child.polls)).StillRunning?)
      ensures !kept ==> places == Gone(old(places), child, deferred)
      ensures table.guards == old(table.guards) && spawned == old(spawned)
    {
      kept, child, deferred := UseGuard(call);
      if !kept {
        assert table.owner.Keys == places.held - {child};
        Settle(child, deferred);
      }
    }

    /** Books where a guard's child has gone. */
    ghost method Settle(child: Child, deferred: bool)
      requires table.Owned() && table.queue == queue && Accounted(places, spawned)
      requires child in places.held && (!deferred ==> Exits(child))
      requires
        var next := Gone(places, child, deferred);
        table.owner.Keys == next.held && queue.pending == next.pending && active == next.active
      modifies this`places
      ensures Valid() && places == Gone(old(places), child, deferred)
    {
      GoesTo(places, spawned, child, deferred);
      places := Gone(places, child, deferred);
    }

    method UseGuard(call: Call) returns (kept: bool, ghost child: Child, ghost deferred: bool)
      requires Valid() && (call.CallWait? || call.CallTryWait? || call.CallTerminate? || call.CallDrop?)
      requires call.guard < |table.guards| && table.guards[call.guard].child != null
      modifies table`owner, table.guards, table.guards[call.guard].child, queue, table.clock
      ensures table.Owned() && table.guards == old(table.guards)
      ensures child == old(table.guards[call.guard].child)
      ensures child in old(table.owner) && old(table.owner)[child] == call.guard && child in places.held
      ensures kept ==> call.CallTryWait? && table.owner == old(table.owner) && queue.pending == old(queue.pending)
      ensures !kept ==> table.owner == old(table.owner) - {child}
      ensures !kept ==> queue.pending == Gone(places, child, deferred).pending && (!deferred ==> Exits(child))
      ensures call.CallTryWait? ==> (kept <==> child.pollAnswers(old(child.polls)).StillRunning?)
      ensures AllExit(places.reaped)
    {
      assert table.Holds(call.guard);
      child := table.guards[call.guard].child;
      OnlyOnce(places, spawned, child);
      assert forall i :: 0 <= i < |places.reaped| ==> places.reaped[i] != child && Exits(places.reaped[i]);
      kept, deferred := table.Use(call);
    }

    /**
     * One round of the reaper: takes the queue, polls everything it then has
     * once, last first, and keeps what has not exited.
     */
    method ReapRound() returns (ghost exited: set<Child>)
      requires Valid()
      modifies this`active, this`places, queue, spawned
      ensures Valid() && queue.pending == [] && places.held == old(places.held)
      ensures forall c :: c in old(places.active + places.pending) ==>
        (c in exited <==> old(c.pollAnswers(c.polls)).Exited?)
      ensures places.reaped == old(places.reaped) + Dying(old(places.active + places.pending), exited)
      ensures spawned == old(spawned) && unchanged(table)
      ensures RoundStep(exited, old(Here()), Here())
    {
      exited := TakeAndPoll();
      BookRound(Dying(places.active + places.pending, exited));
    }

    /** Books what a round has left and whom it has reaped. */
    ghost method BookRound(dead: seq<Child>)
      requires table.Owned() && table.queue == queue && queue.pending == []
      requires places.held == table.owner.Keys && Accounted(places, spawned) && AllExit(dead)
      requires multiset(active) + multiset(dead) == multiset(places.active + places.pending)
      modifies this`places
      ensures Valid() && places == Places(old(places.held), [], active, old(places.reaped) + dead)
    {
      Polled(places, spawned, active, dead);
      places := Places(places.held, [], active, places.reaped + dead);
    }

    method TakeAndPoll() returns (ghost exited: set<Child>)
      requires Valid()
      modifies this`active, queue, spawned
      ensures table.Owned() && unchanged(table) && queue.pending == []
      ensures
        var all := places.active + places.pending;
        && (forall c :: c in all ==> (c in exited <==> old(c.pollAnswers(c.polls)).Exited?))
        && AllExit(Dying(all, exited)) && multiset(active) + multiset(Dying(all, exited)) == multiset(all)
      ensures AllExit(places.reaped)
    {
      ActiveIsDistinct(places, spawned);
      ReapedAreElsewhere(places, spawned);
      Known(places, spawned);
      var batch := queue.TakeAll();
      exited := PollAll(active + batch);
    }

    method PollAll(all: seq<Child>) returns (ghost exited: set<Child>)
      requires table.Owned() && Distinct(all)
      modifies this`active, all
      ensures table.Owned() && unchanged(table)
      ensures forall c :: c in all ==> (c in exited <==> old(c.pollAnswers(c.polls)).Exited?)
      ensures AllExit(Dying(all, exited)) && multiset(active) + multiset(Dying(all, exited)) == multiset(all)
    {
      var left;
      left, exited := PassOver(all);
      active := left;
    }

    /** One call, which does what its step says. */
    method RunCall(call: Call) returns (ghost news: News)
      requires Valid()
      modifies this, table, queue, table.clock, table.guards, spawned
      ensures Valid() && old(spawned) <= spawned && fresh(spawned - old(spawned))
      ensures old(table.guards) <= table.guards
      ensures forall i :: |old(table.guards)| <= i < |table.guards| ==> fresh(table.guards[i])
      ensures Step(call, news, old(Here()), Here())
    {
      match call {
        case Spawn(killAnswers, pollAnswers, deadline) =>
          ghost var child := SpawnChild(killAnswers, pollAnswers, deadline);
          news := Born(child);
        case ReaperRound =>
          ghost var exited := ReapRound();
          news := Round(exited);
        case _ => news := CallIfPresent(call);
      }
    }

    method CallIfPresent(call: Call) returns (ghost news: News)
      requires Valid() && (call.CallWait? || call.CallTryWait? || call.CallTerminate? || call.CallDrop?)
      modifies this`places, table`owner, table.guards, queue, table.clock, spawned
      ensures Valid() && table.guards == old(table.guards) && spawned == old(spawned)
      ensures Step(call, news, old(Here()), Here())
    {
      news := Nothing;
      HoldingMeans(call.guard);
      if call.guard < |table.guards| && table.guards[call.guard].child != null {
        OnlyOnce(places, spawned, table.guards[call.guard].child);
        var kept;
        ghost var child, deferred;
        kept, child, deferred := CallGuard(call);
        news := if kept then Kept else LetGo(child, deferred);
      }
    }

    lemma HoldingMeans(guard: nat)
      requires Valid()
      ensures IsHolding(Here(), guard) <==> guard < |table.guards| && table.guards[guard].child != null
      ensures guard < |table.guards| && table.guards[guard].child != null ==> table.guards[guard].child in places.held
    {
      if guard < |table.guards| && table.guards[guard].child != null {
        assert table.Holds(guard);
      }
    }

    /**
     * Any sequence of calls and reaper rounds keeps every child in exactly one
     * place, and each of them does what its step says: so tells the log of
     * these calls from the first view to the last. A call of a guard that is
     * missing or empty does nothing.
     */
    method RunCalls(calls: seq<Call>) returns (ghost log: Log)
      requires Valid()
      modifies this, table, queue, table.clock, table.guards, spawned
      ensures Valid() && old(spawned) <= spawned
      ensures Tells(log, old(Here()), calls, |calls|) && log.last == Here()
      ensures |table.guards| == |old(table.guards)| + Spawns(calls, |calls|)
      ensures |spawned| == |old(spawned)| + Spawns(calls, |calls|)
    {
      ghost var first := Here();
      log := Start(first);
      for k := 0 to |calls|
        invariant Valid() && old(spawned) <= spawned && fresh(spawned - old(spawned))
        invariant old(table.guards) <= table.guards
        invariant forall i :: |old(table.guards)| <= i < |table.guards| ==> fresh(table.guards[i])
        invariant Tells(log, first, calls, k) && log.last == Here()
      {
        log := RunNext(calls, k, log, first);
      }
      EverySpawnCounts(log, first, calls, |calls|);
    }

    method RunNext(calls: seq<Call>, k: nat, ghost before: Log, ghost first: View) returns (ghost log: Log)
      requires Valid() && k < |calls| && Tells(before, first, calls, k) && before.last == Here()
      modifies this, table, queue, table.clock, table.guards, spawned
      ensures Valid() && old(spawned) <= spawned && fresh(spawned - old(spawned))
      ensures old(table.guards) <= table.guards
      ensures forall i :: |old(table.guards)| <= i < |table.guards| ==> fresh(table.guards[i])
      ensures Tells(log, first, calls, k + 1) && log.last == Here()
    {
      ghost var news := RunCall(calls[k]);
      log := After(before, news, Here());
    }
  }
}
