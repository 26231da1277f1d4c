/** Bounded cleanup of an owned process: kill, poll and sleep until reaped or out of time. */
module Cleanup {
  import opened Common

  /** Ten milliseconds, in nanoseconds. */
  const POLL_INTERVAL: nat := 10_000_000

  /** Largest representable instant; adding past it fails. */
  const LAST_INSTANT: nat := 0xFFFF_FFFF_FFFF_FFFF_FFFF

  type Error = nat

  datatype KillAnswer = Killed | KillFailed(error: Error)

  datatype PollAnswer = Exited(status: int) | StillRunning | PollFailed(error: Error)

  datatype Event = Kill(kill: KillAnswer) | Poll(poll: PollAnswer) | Sleep(duration: nat)

  datatype Outcome = Reaped(status: int, lastError: Option<Error>) | Deferred(lastError: Option<Error>)

  /** A child process whose answers may depend in any way on how often it was asked. */
  class Child {
    const killAnswers: nat -> KillAnswer
    const pollAnswers: nat -> PollAnswer
    var kills: nat
    var polls: nat

    constructor (killAnswers: nat -> KillAnswer, pollAnswers: nat -> PollAnswer)
      ensures this.killAnswers == killAnswers && this.pollAnswers == pollAnswers
      ensures kills == 0 && polls == 0
    {
      this.killAnswers, this.pollAnswers, kills, polls := killAnswers, pollAnswers, 0, 0;
    }

    method KillNow() returns (r: KillAnswer)
      modifies this`kills
      ensures r == killAnswers(old(kills)) && kills == old(kills) + 1
    {
      r := killAnswers(kills);
      kills := kills + 1;
    }

    method TryWait() returns (r: PollAnswer)
      modifies this`polls
      ensures r == pollAnswers(old(polls)) && polls == old(polls) + 1
    {
      r := pollAnswers(polls);
      polls := polls + 1;
    }
  }

  function Deadline(started: nat, grace: nat): (d: nat)
    ensures started <= d <= started + grace
  {
    if started + grace <= LAST_INSTANT then started + grace else started
  }

  // ----- What a trace says -----

  function Slept(trace: seq<Event>): nat {
    if trace == [] then 0
    else
      Slept(trace[..|trace| - 1])
      + if trace[|trace| - 1].Sleep? then trace[|trace| - 1].duration else 0
  }

  function Polls(trace: seq<Event>): nat {
    if trace == [] then 0
    else Polls(trace[..|trace| - 1]) + if trace[|trace| - 1].Poll? then 1 else 0
  }

  function Kills(trace: seq<Event>): nat {
    if trace == [] then 0
    else Kills(trace[..|trace| - 1]) + if trace[|trace| - 1].Kill? then 1 else 0
  }

  function ErrorOf(e: Event): Option<Error> {
    match e
    case Kill(KillFailed(error)) => Some(error)
    case Poll(PollFailed(error)) => Some(error)
    case _ => None
  }

  /** The most recent error. */
  function LastError(trace: seq<Event>): Option<Error> {
    if trace == [] then None
    else if ErrorOf(trace[|trace| - 1]).Some? then ErrorOf(trace[|trace| - 1])
    else LastError(trace[..|trace| - 1])
  }

  ghost predicate KilledIn(trace: seq<Event>) {
    Kill(Killed) in trace
  }

  /**
   * `e` may follow `trace`: the child gave the answer, a kill comes first or
   * after an unlucky poll while none has succeeded, a poll after the first
   * kill or after a sleep, and a sleep after an unlucky poll once the kill
   * that is due has been tried.
   */
  ghost predicate MayFollow(trace: seq<Event>, e: Event, child: Child, kills: nat, polls: nat) {
    match e
    case Kill(answer) =>
      && answer == child.killAnswers(kills + Kills(trace))
      && !KilledIn(trace)
      && (trace == [] || Unlucky(trace[|trace| - 1]))
    case Poll(answer) =>
      && answer == child.pollAnswers(polls + Polls(trace))
      && trace != []
      && (trace[|trace| - 1].Sleep? || |trace| == 1)
    case Sleep(duration) =>
      && 0 < duration <= POLL_INTERVAL
      && |trace| >= 2
      && (trace[|trace| - 1].Kill? || (Unlucky(trace[|trace| - 1]) && KilledIn(trace)))
  }

  predicate Unlucky(e: Event) {
    e.Poll? && !e.poll.Exited?
  }

  ghost predicate Legal(trace: seq<Event>, child: Child, kills: nat, polls: nat) {
    trace == [] ||
    (var n := |trace| - 1;
     Legal(trace[..n], child, kills, polls) && MayFollow(trace[..n], trace[n], child, kills, polls))
  }

  /** How many poll intervals it takes to cover a span. */
  function Intervals(span: nat): (n: nat)
    ensures span <= n * POLL_INTERVAL && (n > 0 ==> (n - 1) * POLL_INTERVAL < span)
  {
    (span + POLL_INTERVAL - 1) / POLL_INTERVAL
  }

  /** The end of the grace period can be told. */
  predicate Fits(started: nat, grace: nat) {
    started + grace <= LAST_INSTANT
  }

  /** The polls that a cleanup may make: one at once, and one after each interval of the grace period. */
  function PollsAllowed(started: nat, grace: nat): nat {
    if Fits(started, grace) then Intervals(grace) + 1 else 1
  }

  /** One of the polls that may be made from poll `from` on sees the exit. */
  ghost predicate ExitsWithin(child: Child, from: nat, started: nat, grace: nat) {
    exists i :: from <= i < from + PollsAllowed(started, grace) && child.pollAnswers(i).Exited?
  }

  /** These polls do not see the exit. */
  ghost predicate NoExitYet(child: Child, from: nat, to: int) {
    forall i :: from <= i < to ==> !child.pollAnswers(i).Exited?
  }

  /** Of these kills all but the last have failed, and `done` says whether the last one has succeeded. */
  ghost predicate KillsUntil(child: Child, from: nat, to: nat, done: bool) {
    && (forall i :: from <= i < to - 1 ==> child.killAnswers(i).KillFailed?)
    && to > from && (done <==> child.killAnswers(to - 1) == Killed)
  }

  lemma TraceSnoc(trace: seq<Event>, e: Event, child: Child, kills: nat, polls: nat)
    requires Legal(trace, child, kills, polls) && MayFollow(trace, e, child, kills, polls)
    ensures Legal(trace + [e], child, kills, polls)
    ensures Slept(trace + [e]) == Slept(trace) + (if e.Sleep? then e.duration else 0)
    ensures Polls(trace + [e]) == Polls(trace) + (if e.Poll? then 1 else 0)
    ensures Kills(trace + [e]) == Kills(trace) + (if e.Kill? then 1 else 0)
    ensures LastError(trace + [e]) == if ErrorOf(e).Some? then ErrorOf(e) else LastError(trace)
    ensures KilledIn(trace + [e]) <==> KilledIn(trace) || e == Kill(Killed)
  {
    assert (trace + [e])[..|trace|] == trace;
  }

  /** No kill is tried after one has succeeded. */
  lemma {:induction false} KillsOnce(trace: seq<Event>, child: Child, kills: nat, polls: nat, i: nat, j: nat)
    requires Legal(trace, child, kills, polls)
    requires i < j < |trace| && trace[i] == Kill(Killed)
    ensures !trace[j].Kill?
    decreases |trace|
  {
    var n := |trace| - 1;
    if j < n {
      KillsOnce(trace[..n], child, kills, polls, i, j);
    } else {
      assert trace[..n][i] == Kill(Killed);
    }
  }

  /** Polling stops once the child is gone. */
  lemma {:induction false} ExitIsLast(trace: seq<Event>, child: Child, kills: nat, polls: nat, i: nat)
    requires Legal(trace, child, kills, polls)
    requires i < |trace| - 1
    ensures !(trace[i].Poll? && trace[i].poll.Exited?)
    decreases |trace|
  {
    var n := |trace| - 1;
    if i < n - 1 {
      ExitIsLast(trace[..n], child, kills, polls, i);
    } else {
      var head := trace[..n];
      assert head[n - 1] == trace[i];
      assert MayFollow(head[..n - 1], head[n - 1], child, kills, polls);
    }
  }

  /** The counters of the child agree with the trace, and so does the caller's record of it. */
  ghost predicate Tracks(trace: seq<Event>, child: Child, kills: nat, polls: nat,
                         killed: bool, lastError: Option<Error>)
    reads child
  {
    && Legal(trace, child, kills, polls)
    && child.kills == kills + Kills(trace) && child.polls == polls + Polls(trace)
    && killed == KilledIn(trace)
    && lastError == LastError(trace)
  }

  method AttemptKill(child: Child, lastError: Option<Error>,
                     ghost trace: seq<Event>, ghost kills: nat, ghost polls: nat)
    returns (killed: bool, lastError': Option<Error>, ghost trace': seq<Event>)
    requires Tracks(trace, child, kills, polls, false, lastError)
    requires trace == [] || Unlucky(trace[|trace| - 1])
    modifies child`kills
    ensures Tracks(trace', child, kills, polls, killed, lastError')
    ensures |trace'| == |trace| + 1 && trace'[|trace|].Kill?
    ensures Slept(trace') == Slept(trace) && Polls(trace') == Polls(trace) && Kills(trace') == Kills(trace) + 1
    ensures child.kills == old(child.kills) + 1 && (killed <==> child.killAnswers(old(child.kills)) == Killed)
  {
    TraceSnoc(trace, Kill(child.killAnswers(child.kills)), child, kills, polls);
    var answer := child.KillNow();
    trace' := trace + [Kill(answer)];
    match answer {
      case Killed => killed, lastError' := true, lastError;
      case KillFailed(error) => killed, lastError' := false, Some(error);
    }
  }

  method PollOnce(child: Child, lastError: Option<Error>, ghost killed: bool,
                  ghost trace: seq<Event>, ghost kills: nat, ghost polls: nat)
    returns (poll: PollAnswer, lastError': Option<Error>, ghost trace': seq<Event>)
    requires Tracks(trace, child, kills, polls, killed, lastError)
    requires trace != [] && (trace[|trace| - 1].Sleep? || |trace| == 1)
    modifies child`polls
    ensures Tracks(trace', child, kills, polls, killed, lastError')
    ensures |trace'| == |trace| + 1 && trace'[|trace|] == Poll(poll)
    ensures Slept(trace') == Slept(trace) && Polls(trace') == Polls(trace) + 1 && Kills(trace') == Kills(trace)
    ensures poll == child.pollAnswers(old(child.polls))
  {
    TraceSnoc(trace, Poll(child.pollAnswers(child.polls)), child, kills, polls);
    poll := child.TryWait();
    trace' := trace + [Poll(poll)];
    lastError' := if poll.PollFailed? then Some(poll.error) else lastError;
  }

  /**
   * For any answers of the child: it is polled at once and after each
   * interval, the last one cut short, until a poll sees the exit or the grace
   * period is over. It is reaped if and only if one of these polls sees the
   * exit, and otherwise deferred when the period is over. A kill is tried
   * before each poll until one succeeds. The outcome carries the most recent
   * error.
   */
  method BoundedCleanup(child: Child, grace: nat, clock: Clock)
    returns (outcome: Outcome, ghost trace: seq<Event>)
    modifies child, clock
    ensures Legal(trace, child, old(child.kills), old(child.polls))
    ensures child.kills == old(child.kills) + Kills(trace)
    ensures child.polls == old(child.polls) + Polls(trace)
    ensures clock.now == old(clock.now) + Slept(trace) && Slept(trace) <= grace
    ensures Polls(trace) <= Intervals(grace) + 1
    ensures outcome.Reaped? <==> ExitsWithin(child, old(child.polls), old(clock.now), grace)
    ensures NoExitYet(child, old(child.polls), child.polls - 1)
    ensures Slept(trace) == Min((Polls(trace) - 1) * POLL_INTERVAL, if Fits(old(clock.now), grace) then grace else 0)
    ensures outcome.Deferred? ==> Polls(trace) == PollsAllowed(old(clock.now), grace)
    ensures outcome.Deferred? && Fits(old(clock.now), grace) ==> Slept(trace) == grace
    ensures Kills(trace) <= Polls(trace) && KillsUntil(child, old(child.kills), child.kills, KilledIn(trace))
    ensures !KilledIn(trace) ==> Kills(trace) == Polls(trace)
    ensures trace != [] && trace[|trace| - 1].Poll?
    ensures outcome.Reaped? <==> trace[|trace| - 1].poll.Exited?
    ensures outcome.Reaped? ==> outcome.status == trace[|trace| - 1].poll.status
    ensures outcome.lastError == LastError(trace)
    ensures outcome.Deferred? ==> clock.now >= Deadline(old(clock.now), grace)
    ensures outcome.Deferred? ==>
      Polls(trace) == Intervals(Deadline(old(clock.now), grace) - old(clock.now)) + 1
  {
    var started := clock.now;
    var deadline := Deadline(started, grace);
    ghost var kills, polls := child.kills, child.polls;
    trace := [];
    var killed, lastError;
    killed, lastError, trace := AttemptKill(child, None, trace, kills, polls);
    outcome, trace := PollUntil(child, clock, deadline, killed, lastError, trace, kills, polls);
    RoundsFit(Polls(trace) - 1, deadline - started);
    RoundsFit(Polls(trace) - 1, grace);
  }

  /** After so many rounds the sleeps are whole intervals, the last one cut short at the end of the span. */
  predicate OnTime(rounds: nat, slept: nat, span: nat) {
    slept == Min(rounds * POLL_INTERVAL, span) && (rounds > 0 ==> (rounds - 1) * POLL_INTERVAL < span)
  }

  lemma OnTimeStill(rounds: nat, slept: nat, span: nat)
    requires OnTime(rounds, slept, span)
    ensures slept < span ==> OnTime(rounds + 1, slept + Min(span - slept, POLL_INTERVAL), span)
  {
  }

  /** Before the first poll and after each of the next `made`, a kill was tried unless one had succeeded. */
  ghost predicate KillsKeepUp(child: Child, from: nat, to: nat, made: int, done: bool) {
    KillsUntil(child, from, to, done) && to - from <= made + 1 && (!done ==> to - from == made + 1)
  }

  lemma KillsGoOn(child: Child, from: nat, to: nat, made: nat, before: bool, done: bool)
    requires KillsKeepUp(child, from, to, made, before)
    requires done <==> before || child.killAnswers(to) == Killed
    ensures KillsKeepUp(child, from, to + (if before then 0 else 1), made + 1, done)
  {
  }

  /** The last poll says whether the child was reaped, and with which status. */
  predicate EndsWith(trace: seq<Event>, outcome: Outcome) {
    && trace != [] && trace[|trace| - 1].Poll?
    && match trace[|trace| - 1].poll
       case Exited(status) => outcome.Reaped? && outcome.status == status
       case _ => outcome.Deferred?
  }

  /** A cleanup under way: the next thing to do is a poll. */
  ghost predicate Underway(trace: seq<Event>, child: Child, kills: nat, polls: nat, span: nat,
                           killed: bool, lastError: Option<Error>)
    reads child
  {
    && Tracks(trace, child, kills, polls, killed, lastError)
    && trace != [] && (trace[|trace| - 1].Sleep? || |trace| == 1)
    && OnTime(Polls(trace), Slept(trace), span)
    && NoExitYet(child, polls, child.polls)
    && KillsKeepUp(child, kills, child.kills, child.polls - polls, killed)
  }

  /** A cleanup that is over after its last poll. */
  ghost predicate IsOver(trace: seq<Event>, child: Child, kills: nat, polls: nat, span: nat, outcome: Outcome)
    reads child
  {
    && Tracks(trace, child, kills, polls, KilledIn(trace), outcome.lastError)
    && EndsWith(trace, outcome)
    && child.polls > polls && NoExitYet(child, polls, child.polls - 1)
    && (outcome.Reaped? <==> child.pollAnswers(child.polls - 1).Exited?)
    && Polls(trace) > 0 && OnTime(Polls(trace) - 1, Slept(trace), span)
    && (outcome.Deferred? ==> Slept(trace) >= span)
    && KillsKeepUp(child, kills, child.kills, child.polls - polls - 1, KilledIn(trace))
  }

  /** The rounds up to the deadline, once a kill has been tried. */
  method PollUntil(child: Child, clock: Clock, deadline: nat, killed: bool, lastError: Option<Error>,
                   ghost start: seq<Event>, ghost kills: nat, ghost polls: nat)
    returns (outcome: Outcome, ghost trace: seq<Event>)
    requires deadline >= clock.now && Slept(start) == 0
    requires Underway(start, child, kills, polls, deadline - clock.now, killed, lastError)
    modifies child, clock
    ensures IsOver(trace, child, kills, polls, deadline - old(clock.now), outcome)
    ensures clock.now == old(clock.now) + Slept(trace)
  {
    ghost var started, span := clock.now, deadline - clock.now;
    trace := start;
    var done, last := killed, lastError;
    while true
      invariant Underway(trace, child, kills, polls, span, done, last)
      invariant clock.now == started + Slept(trace)
      decreases deadline - clock.now
    {
      var over;
      over, done, last, trace :=
        RoundInTime(child, clock, deadline, done, last, trace, kills, polls, started, span);
      if over.Some? {
        return over.value, trace;
      }
    }
  }

  /** A round, and what it means for the time and the kills. */
  method RoundInTime(child: Child, clock: Clock, deadline: nat, killed: bool, lastError: Option<Error>,
                     ghost trace: seq<Event>, ghost kills: nat, ghost polls: nat,
                     ghost started: nat, ghost span: nat)
    returns (over: Option<Outcome>, killed': bool, lastError': Option<Error>, ghost trace': seq<Event>)
    requires Underway(trace, child, kills, polls, span, killed, lastError)
    requires clock.now == started + Slept(trace) && deadline == started + span
    modifies child, clock
    ensures clock.now == started + Slept(trace')
    ensures over.None? ==> Underway(trace', child, kills, polls, span, killed', lastError')
    ensures over.None? ==> old(clock.now) < clock.now <= deadline
    ensures over.Some? ==> IsOver(trace', child, kills, polls, span, over.value)
  {
    OnTimeStill(Polls(trace), Slept(trace), span);
    ghost var tried, made := child.kills, child.polls - polls;
    over, killed', lastError', trace' := Round(child, clock, deadline, killed, lastError, trace, kills, polls);
    if over.None? {
      KillsGoOn(child, kills, tried, made, killed, killed');
    }
  }

  /** One poll; the end of the cleanup, or a kill if one is due and a sleep. */
  method Round(child: Child, clock: Clock, deadline: nat, killed: bool, lastError: Option<Error>,
               ghost trace: seq<Event>, ghost kills: nat, ghost polls: nat)
    returns (over: Option<Outcome>, killed': bool, lastError': Option<Error>, ghost trace': seq<Event>)
    requires Tracks(trace, child, kills, polls, killed, lastError)
    requires trace != [] && (trace[|trace| - 1].Sleep? || |trace| == 1)
    modifies child, clock
    ensures Tracks(trace', child, kills, polls, killed', lastError') && Polls(trace') == Polls(trace) + 1
    ensures over.Some? ==>
      && clock.now == old(clock.now) && Slept(trace') == Slept(trace)
      && child.kills == old(child.kills) && killed' == killed
      && (over.value.Reaped? <==> child.pollAnswers(old(child.polls)).Exited?)
      && EndsWith(trace', over.value) && over.value.lastError == lastError'
      && (over.value.Deferred? ==> clock.now >= deadline)
    ensures over.None? ==>
      && old(clock.now) < deadline && clock.now == old(clock.now) + Min(deadline - old(clock.now), POLL_INTERVAL)
      && !child.pollAnswers(old(child.polls)).Exited?
      && child.kills == old(child.kills) + (if killed then 0 else 1)
      && (killed' <==> killed || child.killAnswers(old(child.kills)) == Killed)
      && Slept(trace') == Slept(trace) + (clock.now - old(clock.now))
      && trace' != [] && trace'[|trace'| - 1].Sleep?
  {
    over, killed' := None, killed;
    var poll;
    poll, lastError', trace' := PollOnce(child, lastError, killed, trace, kills, polls);
    if poll.Exited? {
      over := Some(Reaped(poll.status, lastError'));
      return;
    }
    if clock.now >= deadline {
      over := Some(Deferred(lastError'));
      return;
    }
    if !killed {
      killed', lastError', trace' := AttemptKill(child, lastError', trace', kills, polls);
    }
    trace' := SleepOnce(
      child, clock, Min(deadline - clock.now, POLL_INTERVAL), killed', lastError', trace', kills, polls);
  }

  method SleepOnce(child: Child, clock: Clock, duration: nat, ghost killed: bool, ghost lastError: Option<Error>,
                   ghost trace: seq<Event>, ghost kills: nat, ghost polls: nat)
    returns (ghost trace': seq<Event>)
    requires Tracks(trace, child, kills, polls, killed, lastError)
    requires 0 < duration <= POLL_INTERVAL && |trace| >= 2
    requires trace[|trace| - 1].Kill? || (Unlucky(trace[|trace| - 1]) && killed)
    modifies clock
    ensures Tracks(trace', child, kills, polls, killed, lastError)
    ensures clock.now == old(clock.now) + duration
    ensures trace' == trace + [Sleep(duration)]
    ensures Slept(trace') == Slept(trace) + duration && Polls(trace') == Polls(trace) && Kills(trace') == Kills(trace)
  {
    TraceSnoc(trace, Sleep(duration), child, kills, polls);
    clock.SleepFor(duration);
    trace' := trace + [Sleep(duration)];
  }

  /** `rounds` full sleeps reach the end of the span after `Intervals` of them. */
  lemma RoundsFit(rounds: nat, span: nat)
    ensures (rounds > 0 ==> (rounds - 1) * POLL_INTERVAL < span) <==> rounds <= Intervals(span)
    ensures rounds <= Intervals(span) && rounds * POLL_INTERVAL >= span ==> rounds == Intervals(span)
  {
  }

  // ----- What a legal trace says in the end -----

  predicate IsError(e: Event, error: Error) {
    e == Kill(KillFailed(error)) || e == Poll(PollFailed(error))
  }

  /** The last error of a trace is that of the last failed kill or poll. */
  lemma {:induction false} LastErrorMeans(trace: seq<Event>, error: Error)
    ensures LastError(trace) == Some(error) <==>
      exists i :: 0 <= i < |trace| && IsError(trace[i], error)
                  && forall j, other :: i < j < |trace| ==> !IsError(trace[j], other)
    decreases |trace|
  {
    if trace != [] {
      var n := |trace| - 1;
      var head := trace[..n];
      LastErrorMeans(head, error);
      if ErrorOf(trace[n]).None? {
        assert forall other :: !IsError(trace[n], other);
        if LastError(head) == Some(error) {
          var i :| 0 <= i < n && IsError(head[i], error)
                   && forall j, other :: i < j < n ==> !IsError(head[j], other);
          assert IsError(trace[i], error);
          assert forall j, other :: i < j < |trace| ==> !IsError(trace[j], other);
        }
        if i :| 0 <= i < |trace| && IsError(trace[i], error)
                && forall j, other :: i < j < |trace| ==> !IsError(trace[j], other) {
          assert i < n && IsError(head[i], error);
          assert forall j, other :: i < j < n ==> !IsError(head[j], other);
        }
      } else {
        assert IsError(trace[n], ErrorOf(trace[n]).value);
      }
    }
  }
}
