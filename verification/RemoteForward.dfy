/**
 * The life of a remote forwarding session: `wait`, `shutdown`,
 * `wait_until_cancelled` and `drop` in any order, with the session task, the
 * forwarding tasks it spawns and the timers moving between any two steps of
 * the owner. Every await is one step; a timer may fire at any bounded await.
 */
module RemoteForward {
  import opened Common

  /** How the session task ended. */
  datatype Ending = Cleanly | ByDisconnect | WithError

  datatype Verdict = Fine | CancelFailed | DisconnectFailed | SessionFailed | TimedOut

  /** What a shutdown asks of the session, in the order it asks. */
  datatype Request = CancelForward | Disconnect | Join

  /** A request of a shutdown and whether the session granted it. */
  datatype Asked = Asked(request: Request, ok: bool)

  /** `sessionTerminal` and `terminal` as the shutdown reports them. */
  datatype Outcome = Outcome(result: Verdict, sessionTerminal: bool, terminal: bool)

  datatype Pc =
    | Idle
    | Waiting
    | Selecting
    | Cancelling
    | Disconnecting(cancel: Verdict)
    | Joining(cancel: Verdict, disconnect: Verdict)
    | Emptying(result: Verdict)
    | Asserting(outcome: Outcome)
    | Clearing(outcome: Outcome)
    | Completed(result: Verdict)
    | Settling(result: Verdict)
    | Draining(result: Verdict)
    | Gone

  /**
   * `live` holds the guards of the spawned tasks and `active` the tracker's
   * counter. `misused` and `assertFailed` record a poll of the session after
   * it completed and a failed debug assertion. `asked` lists the requests
   * of the last shutdown of a session, `dropping` marks one made by a drop.
   */
  datatype State = State(
    handle: bool, ended: Option<Ending>, completed: bool, misused: bool, assertFailed: bool,
    cancelled: bool, requested: bool, live: set<nat>, active: nat,
    pc: Pc, dropping: bool, sessionTerminal: bool, asked: seq<Asked>,
    last: Option<Verdict>)

  const START :=
    State(true, None, false, false, false, false, false, {}, 0, Idle, false, false, [], None)

  /** The first error wins, as `Result::and` has it. */
  function And(a: Verdict, b: Verdict): (r: Verdict)
    ensures r == Fine <==> a == Fine && b == Fine
  {
    if a == Fine then b else a
  }

  datatype Step =
    | Register(id: nat)
    | Release(id: nat)
    | SessionEnds(ending: Ending)
    | RequestCancel
    | CallWait
    | CallShutdown
    | CallWaitUntilCancelled
    | CallDrop
    | Go
    | Reply(ok: bool)
    | Timer

  // ----- The session task and its children -----

  /** Tasks are registered by the session task, so only while it runs. */
  function Environment(s: State, step: Step): (t: State)
    ensures t.pc == s.pc
  {
    match step
    case Register(id) =>
      if s.ended.None? && id !in s.live then s.(live := s.live + {id}, active := s.active + 1) else s
    case Release(id) =>
      if id in s.live && s.active > 0 then s.(live := s.live - {id}, active := s.active - 1) else s
    case SessionEnds(ending) => if s.ended.None? then s.(ended := Some(ending)) else s
    case RequestCancel => s.(requested := true)
    case _ => s
  }

  // ----- The owner -----

  function Begin(s: State, step: Step): State {
    match step
    case CallWait => if s.handle then s.(pc := Waiting) else s.(pc := Settling(Fine))
    case CallShutdown => Shutdown(s)
    case CallWaitUntilCancelled => if s.handle then s.(pc := Selecting) else s.(pc := Settling(Fine))
    case CallDrop =>
      if s.handle || s.active > 0 then Shutdown(s.(dropping := true))
      else s.(pc := Gone)
    case _ => s
  }

  function Shutdown(s: State): State {
    var t := s.(cancelled := true);
    if s.handle then t.(pc := Cancelling, sessionTerminal := false, asked := []) else t.(pc := Settling(Fine))
  }

  function Return(s: State, result: Verdict): State {
    if s.dropping then s.(pc := Gone) else s.(pc := Idle, last := Some(result))
  }

  /** Polls the session: polling a completed future again is a fault. */
  function Poll(s: State): State {
    if s.completed then s.(misused := true)
    else if s.ended.Some? then s.(completed := true)
    else s
  }

  /** `wait` reports a disconnect as an error, the join after a disconnect does not. */
  function WaitResult(ending: Ending): Verdict {
    if ending == Cleanly then Fine else SessionFailed
  }

  function JoinResult(ending: Ending): Verdict {
    if ending == WithError then SessionFailed else Fine
  }

  function AwaitSession(s: State): State {
    var t := Poll(s);
    if t.completed && t.ended.Some? then t.(pc := Completed(WaitResult(t.ended.value))) else t
  }

  function AskCancel(s: State, step: Step): (t: State)
    requires s.pc.Cancelling?
    ensures t.pc.Cancelling? || t.pc.Disconnecting? || t.pc.Asserting?
    ensures step == Timer ==> t.pc.Asserting?
  {
    match step
    case Reply(ok) =>
      s.(pc := Disconnecting(if ok then Fine else CancelFailed), asked := s.asked + [Asked(CancelForward, ok)])
    case Timer => Expire(s)
    case _ => s
  }

  function AskDisconnect(s: State, cancel: Verdict, step: Step): (t: State)
    requires s.pc.Disconnecting?
    ensures t.pc.Disconnecting? || t.pc.Joining? || t.pc.Asserting?
    ensures step == Timer ==> t.pc.Asserting?
  {
    match step
    case Reply(ok) =>
      s.(pc := Joining(cancel, if ok then Fine else DisconnectFailed), asked := s.asked + [Asked(Disconnect, ok)])
    case Timer => Expire(s)
    case _ => s
  }

  function AwaitEmpty(s: State, result: Verdict, step: Step): (t: State)
    ensures t.pc == s.pc || t.pc.Asserting?
    ensures step == Timer ==> t.pc.Asserting?
  {
    match step
    case Go => if s.active == 0 then s.(pc := Asserting(Outcome(result, true, true))) else s
    case Timer => Expire(s)
    case _ => s
  }

  function Drain(s: State, result: Verdict, step: Step): (t: State)
    ensures t.pc == s.pc || t.pc.Idle? || t.pc.Gone?
    ensures step == Timer ==> t.pc.Idle? || t.pc.Gone?
  {
    match step
    case Go => if s.active == 0 then Return(s, result) else s
    case Timer => Return(s, And(result, TimedOut))
    case _ => s
  }

  function Check(s: State, outcome: Outcome): State {
    s.(pc := Clearing(outcome), assertFailed := s.assertFailed || (outcome.terminal && s.active != 0))
  }

  function Clear(s: State, outcome: Outcome): State {
    Return(if outcome.sessionTerminal then s.(handle := false) else s, outcome.result)
  }

  function Owner(s: State, step: Step): State {
    match s.pc
    case Idle => Begin(s, step)
    case Waiting => if step.Go? then AwaitSession(s) else s
    case Selecting => if !step.Go? then s else if s.requested then Shutdown(s) else AwaitSession(s)
    case Cancelling => AskCancel(s, step)
    case Disconnecting(cancel) => AskDisconnect(s, cancel, step)
    case Joining(cancel, disconnect) =>
      if step.Go? then JoinSession(s, cancel, disconnect) else if step.Timer? then Expire(s) else s
    case Emptying(result) => AwaitEmpty(s, result, step)
    case Asserting(outcome) => if step.Go? then Check(s, outcome) else s
    case Clearing(outcome) => if step.Go? then Clear(s, outcome) else s
    case Completed(result) => if step.Go? then s.(handle := false, pc := Settling(result)) else s
    case Settling(result) => if step.Go? then s.(cancelled := true, pc := Draining(result)) else s
    case Draining(result) => Drain(s, result, step)
    case Gone => s
  }

  /** The flag is stored in the same poll that completes the session. */
  function JoinSession(s: State, cancel: Verdict, disconnect: Verdict): (next: State)
    ensures next.pc == s.pc || next.pc.Emptying?
    ensures next.dropping == s.dropping
  {
    var t := Poll(s);
    if t.completed && t.ended.Some? then
      t.(pc := Emptying(And(And(cancel, disconnect), JoinResult(t.ended.value))),
         sessionTerminal := true, asked := t.asked + [Asked(Join, t.ended.value != WithError)])
    else t
  }

  function Expire(s: State): State {
    s.(pc := Asserting(Outcome(TimedOut, s.sessionTerminal, false)))
  }

  predicate FromOutside(step: Step) {
    step.Register? || step.Release? || step.SessionEnds? || step.RequestCancel?
  }

  function Next(s: State, step: Step): State {
    if FromOutside(step) then Environment(s, step) else Owner(s, step)
  }

  function Run(s: State, steps: seq<Step>): State
    decreases |steps|
  {
    if steps == [] then s else Run(Next(s, steps[0]), steps[1..])
  }

  // ----- The invariant -----

  function Failure(request: Request): Verdict {
    match request
    case CancelForward => CancelFailed
    case Disconnect => DisconnectFailed
    case Join => SessionFailed
  }

  /** The error of the earliest request that failed. */
  function FirstFailure(asked: seq<Asked>): Verdict {
    if asked == [] then Fine
    else if !asked[0].ok then Failure(asked[0].request)
    else FirstFailure(asked[1..])
  }

  function Requests(asked: seq<Asked>): (r: seq<Request>)
    ensures |r| == |asked|
  {
    seq(|asked|, i requires 0 <= i < |asked| => asked[i].request)
  }

  /** The session was joined and nobody has cleared the handle yet. */
  predicate Uncleared(s: State) {
    match s.pc
    case Emptying(_) => true
    case Completed(_) => true
    case Asserting(outcome) => outcome.sessionTerminal
    case Clearing(outcome) => outcome.sessionTerminal
    case _ => false
  }

  predicate HasSession(pc: Pc) {
    pc.Waiting? || pc.Selecting? || pc.Cancelling? || pc.Disconnecting? || pc.Joining?
    || pc.Emptying? || pc.Asserting? || pc.Clearing? || pc.Completed?
  }

  predicate Empty(s: State) {
    s.completed && s.active == 0
  }

  ghost predicate HandleInv(s: State) {
    && !s.misused && !s.assertFailed
    && |s.live| == s.active
    && (s.completed ==> s.ended.Some?)
    && (Uncleared(s) ==> s.handle && s.completed)
    && (!Uncleared(s) ==> (s.handle <==> !s.completed))
    && (HasSession(s.pc) ==> s.handle)
    && (s.pc.Settling? || s.pc.Draining? ==> !s.handle)
  }

  ghost predicate ShutdownInv(s: State) {
    match s.pc
    case Cancelling => !s.sessionTerminal && s.asked == [] && s.cancelled
    case Disconnecting(cancel) => !s.sessionTerminal && |s.asked| == 1 && s.cancelled && FirstIs(s, cancel)
    case Joining(cancel, disconnect) =>
      && !s.sessionTerminal && |s.asked| == 2 && s.cancelled
      && FirstIs(s, cancel) && SecondIs(s, disconnect)
    case Emptying(result) =>
      && s.sessionTerminal && |s.asked| == 3 && s.cancelled && Decided(s, result)
      && (s.asked[2].ok <==> s.ended != Some(WithError))
    case Asserting(outcome) => s.cancelled && Reported(s, outcome)
    case Clearing(outcome) => s.cancelled && Reported(s, outcome)
    case Completed(result) => result == if s.ended == Some(Cleanly) then Fine else SessionFailed
    case Settling(result) => result in {Fine, SessionFailed}
    case Draining(result) => s.cancelled && result in {Fine, SessionFailed}
    case _ => true
  }

  predicate FirstIs(s: State, cancel: Verdict) {
    |s.asked| > 0 && s.asked[0] == Asked(CancelForward, cancel == Fine) && cancel in {Fine, CancelFailed}
  }

  predicate SecondIs(s: State, disconnect: Verdict) {
    && |s.asked| > 1 && s.asked[1] == Asked(Disconnect, disconnect == Fine)
    && disconnect in {Fine, DisconnectFailed}
  }

  predicate Decided(s: State, result: Verdict) {
    && |s.asked| == 3
    && s.asked[0].request == CancelForward && s.asked[1].request == Disconnect && s.asked[2].request == Join
    && result == (if !s.asked[0].ok then CancelFailed
                  else if !s.asked[1].ok then DisconnectFailed
                  else if !s.asked[2].ok then SessionFailed
                  else Fine)
  }

  ghost predicate Reported(s: State, outcome: Outcome) {
    && |s.asked| <= 3
    && (forall i :: 0 <= i < |s.asked| ==> s.asked[i].request == [CancelForward, Disconnect, Join][i])
    && (outcome.sessionTerminal <==> |s.asked| == 3)
    && (outcome.terminal ==> outcome.sessionTerminal && s.active == 0 && s.completed)
    && (outcome.sessionTerminal ==> (s.asked[2].ok <==> s.ended != Some(WithError)))
    && (if outcome.terminal then Decided(s, outcome.result) else outcome.result == TimedOut)
  }

  ghost predicate ReturnInv(s: State) {
    && (s.last.Some? ==> s.cancelled)
    && (s.last == Some(Fine) ==> Empty(s))
    && (s.pc == Gone && !s.dropping ==> Empty(s))
    && (s.dropping ==> s.cancelled)
    && (s.pc == Idle ==> !s.dropping)
  }

  ghost predicate Inv(s: State) {
    HandleInv(s) && ShutdownInv(s) && ReturnInv(s)
  }

  lemma StartInv()
    ensures Inv(START)
  {
  }

  lemma EnvironmentKeepsInv(s: State, step: Step)
    requires Inv(s) && FromOutside(step)
    ensures Inv(Environment(s, step))
  {
  }

  lemma BeginKeepsInv(s: State, step: Step)
    requires Inv(s) && s.pc.Idle?
    ensures Inv(Begin(s, step))
  {
    match step
    case CallShutdown => ShutdownKeepsInv(s);
    case CallDrop => DropKeepsInv(s);
    case _ =>
  }

  lemma DropKeepsInv(s: State)
    requires Inv(s) && s.pc.Idle?
    ensures Inv(Begin(s, CallDrop))
  {
  }

  lemma AskCancelKeepsInv(s: State, step: Step)
    requires Inv(s) && s.pc.Cancelling?
    ensures Inv(AskCancel(s, step))
  {
  }

  lemma AskDisconnectKeepsInv(s: State, step: Step)
    requires Inv(s) && s.pc.Disconnecting?
    ensures Inv(AskDisconnect(s, s.pc.cancel, step))
  {
  }

  lemma AwaitEmptyKeepsInv(s: State, step: Step)
    requires Inv(s) && s.pc.Emptying?
    ensures Inv(AwaitEmpty(s, s.pc.result, step))
  {
  }

  lemma DrainKeepsInv(s: State, step: Step)
    requires Inv(s) && s.pc.Draining?
    ensures Inv(Drain(s, s.pc.result, step))
  {
  }

  lemma ShutdownKeepsInv(s: State)
    requires Inv(s) && (s.pc.Idle? || s.pc.Selecting?)
    ensures Inv(Shutdown(s))
  {
  }

  lemma AwaitSessionKeepsInv(s: State)
    requires Inv(s) && (s.pc.Waiting? || s.pc.Selecting?)
    ensures Inv(AwaitSession(s))
  {
  }

  lemma JoinKeepsInv(s: State)
    requires Inv(s) && s.pc.Joining?
    ensures Inv(JoinSession(s, s.pc.cancel, s.pc.disconnect))
  {
  }

  lemma ExpireKeepsInv(s: State)
    requires Inv(s)
    requires s.pc.Cancelling? || s.pc.Disconnecting? || s.pc.Joining? || s.pc.Emptying?
    ensures Inv(Expire(s))
  {
  }

  lemma CheckKeepsInv(s: State)
    requires Inv(s) && s.pc.Asserting?
    ensures Inv(Check(s, s.pc.outcome))
  {
  }

  lemma ClearKeepsInv(s: State)
    requires Inv(s) && s.pc.Clearing?
    ensures Inv(Clear(s, s.pc.outcome))
  {
  }

  lemma SettleKeepsInv(s: State)
    requires Inv(s)
    ensures s.pc.Completed? ==> Inv(s.(handle := false, pc := Settling(s.pc.result)))
    ensures s.pc.Settling? ==> Inv(s.(cancelled := true, pc := Draining(s.pc.result)))
  {
  }

  lemma OwnerKeepsInv(s: State, step: Step)
    requires Inv(s)
    ensures Inv(Owner(s, step))
  {
    match s.pc
    case Idle => BeginKeepsInv(s, step);
    case Waiting => AwaitSessionKeepsInv(s);
    case Selecting =>
      ShutdownKeepsInv(s);
      AwaitSessionKeepsInv(s);
    case Cancelling => AskCancelKeepsInv(s, step);
    case Disconnecting(_) => AskDisconnectKeepsInv(s, step);
    case Joining(_, _) =>
      JoinKeepsInv(s);
      ExpireKeepsInv(s);
    case Emptying(_) => AwaitEmptyKeepsInv(s, step);
    case Asserting(_) => CheckKeepsInv(s);
    case Clearing(_) => ClearKeepsInv(s);
    case Completed(_) => SettleKeepsInv(s);
    case Settling(_) => SettleKeepsInv(s);
    case Draining(_) => DrainKeepsInv(s, step);
    case Gone =>
  }

  lemma {:induction false} RunKeepsInv(s: State, steps: seq<Step>)
    requires Inv(s)
    ensures Inv(Run(s, steps))
    decreases |steps|
  {
    if steps != [] {
      if FromOutside(steps[0]) {
        EnvironmentKeepsInv(s, steps[0]);
      } else {
        OwnerKeepsInv(s, steps[0]);
      }
      RunKeepsInv(Next(s, steps[0]), steps[1..]);
    }
  }

  // ----- What an owner can rely on -----

  /** The session is never polled after it completed, and the debug assertion never fires. */
  lemma NeverPolledTwice(steps: seq<Step>)
    ensures !Run(START, steps).misused && !Run(START, steps).assertFailed
  {
    StartInv();
    RunKeepsInv(START, steps);
  }

  /** Between calls the handle is gone exactly when the session has been joined. */
  lemma HandleTellsTheTruth(steps: seq<Step>)
    requires Run(START, steps).pc == Idle
    ensures Run(START, steps).handle <==> !Run(START, steps).completed
  {
    StartInv();
    RunKeepsInv(START, steps);
  }

  /** A call that returns success leaves no session and no task, then and for ever. */
  lemma SuccessLeavesNothing(steps: seq<Step>, more: seq<Step>)
    requires Run(START, steps).last == Some(Fine)
    ensures
      var s := Run(START, steps + more);
      s.completed && s.active == 0 && s.live == {}
  {
    StartInv();
    RunKeepsInv(START, steps);
    RunAppend(START, steps, more);
    StaysEmpty(Run(START, steps), more);
    var s := Run(Run(START, steps), more);
    assert |s.live| == 0;
  }

  lemma {:induction false} StaysEmpty(s: State, steps: seq<Step>)
    requires Inv(s) && Empty(s)
    ensures Inv(Run(s, steps)) && Empty(Run(s, steps))
    decreases |steps|
  {
    RunKeepsInv(s, steps);
    if steps != [] {
      RunKeepsInv(s, [steps[0]]);
      assert Run(s, [steps[0]]) == Next(s, steps[0]) by {
        assert [steps[0]][1..] == [];
      }
      EmptyStep(s, steps[0]);
      StaysEmpty(Next(s, steps[0]), steps[1..]);
    }
  }

  lemma EmptyStep(s: State, step: Step)
    requires Inv(s) && Empty(s)
    ensures Empty(Next(s, step))
  {
  }

  lemma {:induction false} RunAppend(s: State, xs: seq<Step>, ys: seq<Step>)
    ensures Run(s, xs + ys) == Run(Run(s, xs), ys)
    decreases |xs|
  {
    if xs == [] {
      assert xs + ys == ys;
    } else {
      assert (xs + ys)[0] == xs[0] && (xs + ys)[1..] == xs[1..] + ys;
      RunAppend(Next(s, xs[0]), xs[1..], ys);
    }
  }

  /** Every call that returns has told the forwarding tasks to stop. */
  lemma EveryReturnCancels(steps: seq<Step>)
    requires Run(START, steps).last.Some?
    ensures Run(START, steps).cancelled
  {
    StartInv();
    RunKeepsInv(START, steps);
  }

  /** A drop skips the shutdown only when there is nothing to shut down. */
  lemma DropSkipsOnlyWhenEmpty(steps: seq<Step>)
    requires Run(START, steps).pc == Gone
    ensures
      var s := Run(START, steps);
      if s.dropping then s.cancelled else s.completed && s.live == {}
  {
    StartInv();
    RunKeepsInv(START, steps);
    var s := Run(START, steps);
    if !s.dropping {
      assert |s.live| == 0;
    }
  }

  /**
   * A shutdown asks in one order and goes on after an error. It calls the
   * session terminal exactly when it joined it, and reports the earliest
   * error exactly when it did not time out.
   */
  lemma ShutdownReports(steps: seq<Step>)
    requires Run(START, steps).pc.Asserting?
    ensures
      var s := Run(START, steps);
      var outcome := s.pc.outcome;
      && Requests(s.asked) <= [CancelForward, Disconnect, Join]
      && (outcome.sessionTerminal <==> |s.asked| == 3)
      && (outcome.sessionTerminal <==> s.completed)
      && (outcome.sessionTerminal ==> (s.asked[2].ok <==> s.ended != Some(WithError)))
      && (if outcome.terminal then outcome.result == FirstFailure(s.asked) else outcome.result == TimedOut)
      && (outcome.terminal ==> s.completed && s.live == {})
  {
    StartInv();
    RunKeepsInv(START, steps);
    var s := Run(START, steps);
    if s.pc.outcome.terminal {
      assert |s.live| == 0;
      assert FirstFailure(s.asked[1..][1..][1..]) == Fine;
      assert FirstFailure(s.asked[1..][1..]) == if s.asked[2].ok then Fine else SessionFailed;
      assert FirstFailure(s.asked[1..])
        == if s.asked[1].ok then FirstFailure(s.asked[1..][1..]) else DisconnectFailed;
    }
  }

  /** A wait takes a disconnect of the peer for an error; the join of a shutdown does not. */
  lemma WaitReports(steps: seq<Step>)
    requires Run(START, steps).pc.Completed?
    ensures
      var s := Run(START, steps);
      s.completed && s.pc.result == if s.ended == Some(Cleanly) then Fine else SessionFailed
  {
    StartInv();
    RunKeepsInv(START, steps);
  }

  // ----- Bounded calls -----

  /** Steps a call can still make on its own, timers included. */
  function Rank(pc: Pc): nat {
    match pc
    case Idle => 0
    case Gone => 0
    case Draining(_) => 1
    case Clearing(_) => 1
    case Settling(_) => 2
    case Asserting(_) => 2
    case Completed(_) => 3
    case Emptying(_) => 3
    case Joining(_, _) => 4
    case Disconnecting(_) => 5
    case Cancelling => 6
    case Waiting => 7
    case Selecting => 7
  }

  /** What moves a call on without the session: its timer, or the owner itself. */
  function Nudge(pc: Pc): Step {
    if pc.Cancelling? || pc.Disconnecting? || pc.Joining? || pc.Emptying? || pc.Draining? then Timer else Go
  }

  lemma NudgeAdvances(s: State)
    requires !Open(s.pc) && s.pc != Idle && s.pc != Gone
    ensures Rank(Owner(s, Nudge(s.pc)).pc) < Rank(s.pc) <= 6
  {
    if Nudge(s.pc) == Timer {
      TimerEnds(s);
    } else {
      OwnerEnds(s);
    }
  }

  lemma TimerEnds(s: State)
    requires Nudge(s.pc) == Timer
    ensures Rank(Owner(s, Timer).pc) < Rank(s.pc)
  {
    if s.pc.Draining? {
      assert Owner(s, Timer) == Return(s, And(s.pc.result, TimedOut));
    } else {
      TimerExpires(s);
      assert Expire(s).pc.Asserting?;
    }
  }

  lemma TimerExpires(s: State)
    requires Nudge(s.pc) == Timer && !s.pc.Draining?
    ensures Owner(s, Timer) == Expire(s)
  {
  }

  lemma OwnerEnds(s: State)
    requires s.pc.Asserting? || s.pc.Clearing? || s.pc.Completed? || s.pc.Settling?
    ensures Rank(Owner(s, Go).pc) < Rank(s.pc)
  {
  }

  /** The two waits that have no timer. */
  predicate Open(pc: Pc) {
    pc.Waiting? || pc.Selecting?
  }

  /** Anything the session, the tasks and other threads do. */
  function Outside(s: State, steps: seq<Step>): State
    decreases |steps|
  {
    if steps == [] then s
    else Outside(if FromOutside(steps[0]) then Environment(s, steps[0]) else s, steps[1..])
  }

  /** Before each step of the owner or its timer, any number of steps from outside. */
  function Nudged(s: State, outside: seq<seq<Step>>): State
    decreases |outside|
  {
    if outside == [] || s.pc == Idle || s.pc == Gone then s
    else
      var t := Outside(s, outside[0]);
      Nudged(Owner(t, Nudge(t.pc)), outside[1..])
  }

  lemma {:induction false} OutsideKeepsPc(s: State, steps: seq<Step>)
    ensures Outside(s, steps).pc == s.pc
    decreases |steps|
  {
    if steps != [] {
      OutsideKeepsPc(if FromOutside(steps[0]) then Environment(s, steps[0]) else s, steps[1..]);
    }
  }

  /**
   * However the session and the tasks behave in between, a running call ends
   * after at most six steps of its own and of its timers; only the two
   * open-ended waits can stay.
   */
  lemma {:induction false} TimersEndCalls(s: State, outside: seq<seq<Step>>)
    requires !Open(s.pc) && |outside| >= Rank(s.pc)
    ensures Nudged(s, outside).pc in {Idle, Gone}
    ensures Rank(s.pc) <= 6
    decreases |outside|
  {
    if s.pc != Idle && s.pc != Gone {
      var t := Outside(s, outside[0]);
      OutsideKeepsPc(s, outside[0]);
      NudgeAdvances(t);
      NotOpenAgain(t);
      TimersEndCalls(Owner(t, Nudge(t.pc)), outside[1..]);
    }
  }

  lemma NotOpenAgain(s: State)
    requires s.pc != Idle && s.pc != Gone && !Open(s.pc)
    ensures !Open(Owner(s, Nudge(s.pc)).pc)
  {
    NudgeAdvances(s);
    assert Rank(Owner(s, Nudge(s.pc)).pc) < 6;
  }

  // ----- What a call returns -----

  /** These steps bring a running call to its return, and not before the last of them. */
  predicate Returns(s: State, steps: seq<Step>)
    decreases |steps|
  {
    && s.pc != Idle && steps != []
    && if |steps| == 1 then Next(s, steps[0]).pc == Idle else Returns(Next(s, steps[0]), steps[1..])
  }

  predicate InShutdown(pc: Pc) {
    pc.Cancelling? || pc.Disconnecting? || pc.Joining? || pc.Emptying? || pc.Asserting? || pc.Clearing?
  }

  /** A timer fires while its await is pending. */
  predicate Expires(s: State, steps: seq<Step>)
    decreases |steps|
  {
    steps != [] &&
    ((steps[0] == Timer &&
      (s.pc.Cancelling? || s.pc.Disconnecting? || s.pc.Joining? || s.pc.Emptying? || s.pc.Draining?))
     || Expires(Next(s, steps[0]), steps[1..]))
  }

  /** At a select the stop request is seen. */
  predicate Heeds(s: State, steps: seq<Step>)
    decreases |steps|
  {
    steps != [] && ((s.pc.Selecting? && s.requested && steps[0] == Go) || Heeds(Next(s, steps[0]), steps[1..]))
  }

  /** The error of the session itself, as a wait sees it. */
  function EndingError(ended: Option<Ending>): Verdict {
    if ended == Some(Cleanly) then Fine else SessionFailed
  }

  /** A call under way that began with a session or without one. */
  ghost predicate UnderWay(s: State, had: bool) {
    && !s.dropping
    && match s.pc
       case Waiting => had
       case Selecting => had
       case Completed(result) => had && s.ended.Some? && result == EndingError(s.ended)
       case Settling(result) => (had ==> s.ended.Some?) && result == if had then EndingError(s.ended) else Fine
       case Draining(result) => (had ==> s.ended.Some?) && result == if had then EndingError(s.ended) else Fine
       case _ => had && InShutdown(s.pc)
  }

  lemma BeginsUnderWay(s: State, call: Step)
    requires Inv(s) && s.pc == Idle && call in {CallWait, CallShutdown, CallWaitUntilCancelled}
    ensures UnderWay(Next(s, call), s.handle)
    ensures InShutdown(Next(s, call).pc) <==> call == CallShutdown && s.handle
  {
  }

  lemma StaysUnderWay(s: State, had: bool, step: Step)
    requires Inv(s) && UnderWay(s, had) && Next(s, step).pc != Idle
    ensures UnderWay(Next(s, step), had)
    ensures InShutdown(Next(s, step).pc) <==>
      InShutdown(s.pc) || (s.pc.Selecting? && s.requested && step == Go)
  {
    if FromOutside(step) {
      EnvironmentLeaves(s, step);
    } else if InShutdown(s.pc) {
      ShutdownStays(s, step);
    } else {
      WaitStays(s, had, step);
    }
  }

  lemma ShutdownStays(s: State, step: Step)
    requires InShutdown(s.pc) && !s.dropping && Owner(s, step).pc != Idle
    ensures InShutdown(Owner(s, step).pc) && !Owner(s, step).dropping
  {
    if s.pc.Cancelling? || s.pc.Disconnecting? {
      RequestsStay(s, step);
    } else if s.pc.Joining? || s.pc.Emptying? {
      JoinStays(s, step);
    } else {
      ReportStays(s, step);
    }
  }

  lemma RequestsStay(s: State, step: Step)
    requires s.pc.Cancelling? || s.pc.Disconnecting?
    ensures InShutdown(Owner(s, step).pc) && Owner(s, step).dropping == s.dropping
  {
    if s.pc.Cancelling? {
      CancelStays(s, step);
    } else {
      DisconnectStays(s, step);
    }
  }

  lemma CancelStays(s: State, step: Step)
    requires s.pc.Cancelling?
    ensures InShutdown(Owner(s, step).pc) && Owner(s, step).dropping == s.dropping
  {
  }

  lemma DisconnectStays(s: State, step: Step)
    requires s.pc.Disconnecting?
    ensures InShutdown(Owner(s, step).pc) && Owner(s, step).dropping == s.dropping
  {
  }

  lemma JoinStays(s: State, step: Step)
    requires s.pc.Joining? || s.pc.Emptying?
    ensures InShutdown(Owner(s, step).pc) && Owner(s, step).dropping == s.dropping
  {
    if s.pc.Joining? {
      JoiningStays(s, step);
    } else {
      EmptyingStays(s, step);
    }
  }

  lemma JoiningStays(s: State, step: Step)
    requires s.pc.Joining?
    ensures InShutdown(Owner(s, step).pc) && Owner(s, step).dropping == s.dropping
  {
    var joined := JoinSession(s, s.pc.cancel, s.pc.disconnect);
    assert Owner(s, step) == if step.Go? then joined else if step.Timer? then Expire(s) else s;
  }

  lemma EmptyingStays(s: State, step: Step)
    requires s.pc.Emptying?
    ensures InShutdown(Owner(s, step).pc) && Owner(s, step).dropping == s.dropping
  {
  }

  lemma ReportStays(s: State, step: Step)
    requires s.pc.Asserting? || s.pc.Clearing?
    ensures Owner(s, step).pc != Idle ==> InShutdown(Owner(s, step).pc) || s.dropping
    ensures Owner(s, step).dropping == s.dropping
  {
    if s.pc.Clearing? && step.Go? {
      assert Owner(s, step) == Clear(s, s.pc.outcome);
    }
  }

  lemma WaitStays(s: State, had: bool, step: Step)
    requires Inv(s) && UnderWay(s, had) && !InShutdown(s.pc) && Owner(s, step).pc != Idle
    ensures UnderWay(Owner(s, step), had)
    ensures InShutdown(Owner(s, step).pc) <==> s.pc.Selecting? && s.requested && step == Go
  {
    match s.pc
    case Waiting =>
    case Selecting =>
    case Completed(_) =>
    case Settling(_) =>
    case _ =>
  }

  lemma EnvironmentLeaves(s: State, step: Step)
    requires FromOutside(step)
    ensures
      var t := Environment(s, step);
      && t.pc == s.pc && t.dropping == s.dropping && t.asked == s.asked && t.last == s.last
      && (s.ended.Some? ==> t.ended == s.ended)
  {
    match step
    case Register(_) => RegisterLeaves(s, step);
    case Release(_) => ReleaseLeaves(s, step);
    case _ =>
  }

  lemma RegisterLeaves(s: State, step: Step)
    requires step.Register?
    ensures
      var t := Environment(s, step);
      && t.pc == s.pc && t.dropping == s.dropping && t.asked == s.asked && t.last == s.last && t.ended == s.ended
  {
  }

  lemma ReleaseLeaves(s: State, step: Step)
    requires step.Release?
    ensures
      var t := Environment(s, step);
      && t.pc == s.pc && t.dropping == s.dropping && t.asked == s.asked && t.last == s.last && t.ended == s.ended
  {
  }

  /** The last step of a call: the drain has ended or timed out, or the shutdown reports. */
  lemma LastStep(s: State, had: bool, step: Step)
    requires Inv(s) && UnderWay(s, had) && Next(s, step).pc == Idle
    ensures
      var t := Next(s, step);
      && t.asked == s.asked && t.ended == s.ended && (s.pc.Draining? || s.pc.Clearing?)
      && (s.pc.Draining? ==>
            && step in {Go, Timer} && (step == Go ==> t.active == 0)
            && t.last == Some(if s.pc.result == Fine && step == Timer then TimedOut else s.pc.result))
      && (s.pc.Clearing? ==> step == Go && t.last == Some(s.pc.outcome.result))
  {
    if FromOutside(step) {
      EnvironmentLeaves(s, step);
    }
  }

  /** What a shutdown owes its caller: a time-out, or the error of the earliest request that failed. */
  predicate ShutdownResult(t: State, expired: bool) {
    t.last == Some(if expired then TimedOut else FirstFailure(t.asked)) && (!expired ==> |t.asked| == 3)
  }

  /** A wait returns the error of the session, or else says whether the tasks were gone in time. */
  predicate WaitReturns(t: State, had: bool, expired: bool) {
    var own := if had then EndingError(t.ended) else Fine;
    t.last == Some(if own == Fine && expired then TimedOut else own)
  }

  /** A shutdown has expired exactly when it is about to report a time-out. */
  ghost predicate ExpiredSoFar(s: State, expired: bool) {
    match s.pc
    case Asserting(outcome) => expired <==> !outcome.terminal
    case Clearing(outcome) => expired <==> !outcome.terminal
    case _ => !expired
  }

  lemma ExpiryIsSeen(s: State, had: bool, step: Step, expired: bool)
    requires Inv(s) && UnderWay(s, had) && ExpiredSoFar(s, expired) && Next(s, step).pc != Idle
    ensures
      var now := step == Timer
        && (s.pc.Cancelling? || s.pc.Disconnecting? || s.pc.Joining? || s.pc.Emptying? || s.pc.Draining?);
      ExpiredSoFar(Next(s, step), expired || now)
  {
    if FromOutside(step) {
      EnvironmentLeaves(s, step);
    } else if s.pc.Cancelling? || s.pc.Disconnecting? {
      RequestExpires(s, step);
    } else if s.pc.Joining? || s.pc.Emptying? {
      JoinExpires(s, step);
    }
  }

  lemma RequestExpires(s: State, step: Step)
    requires s.pc.Cancelling? || s.pc.Disconnecting?
    ensures ExpiredSoFar(Owner(s, step), step == Timer)
  {
  }

  lemma JoinExpires(s: State, step: Step)
    requires s.pc.Joining? || s.pc.Emptying?
    ensures ExpiredSoFar(Owner(s, step), step == Timer)
  {
  }

  lemma ReportIsFirstFailure(s: State)
    requires Inv(s) && s.pc.Clearing?
    ensures s.pc.outcome.result == if s.pc.outcome.terminal then FirstFailure(s.asked) else TimedOut
    ensures s.pc.outcome.terminal ==> |s.asked| == 3
  {
    if s.pc.outcome.terminal {
      assert FirstFailure(s.asked[1..][1..][1..]) == Fine;
      assert FirstFailure(s.asked[1..][1..]) == if s.asked[2].ok then Fine else SessionFailed;
      assert FirstFailure(s.asked[1..])
        == if s.asked[1].ok then FirstFailure(s.asked[1..][1..]) else DisconnectFailed;
    }
  }

  lemma {:induction false} CourseReturns(s: State, steps: seq<Step>, had: bool, expired: bool)
    requires Inv(s) && UnderWay(s, had) && ExpiredSoFar(s, expired) && Returns(s, steps)
    ensures
      var t := Run(s, steps);
      if InShutdown(s.pc) || Heeds(s, steps) then ShutdownResult(t, expired || Expires(s, steps))
      else WaitReturns(t, had, expired || Expires(s, steps))
    decreases |steps|
  {
    var next := Next(s, steps[0]);
    if |steps| == 1 {
      LastStep(s, had, steps[0]);
      assert steps[1..] == [];
      assert Run(next, []) == next && !Expires(next, []) && !Heeds(next, []);
      if s.pc.Clearing? {
        ReportIsFirstFailure(s);
      }
    } else {
      RunKeepsInv(s, [steps[0]]);
      assert [steps[0]][1..] == [];
      assert Run(s, [steps[0]]) == next;
      StaysUnderWay(s, had, steps[0]);
      ExpiryIsSeen(s, had, steps[0], expired);
      var now := steps[0] == Timer
        && (s.pc.Cancelling? || s.pc.Disconnecting? || s.pc.Joining? || s.pc.Emptying? || s.pc.Draining?);
      CourseReturns(next, steps[1..], had, expired || now);
    }
  }

  /**
   * What each call returns, whatever happens in between. A shutdown, and a
   * wait that saw the stop request, returns a time-out if and only if its
   * timer fired, and otherwise the error of the earliest request that failed.
   * Any other wait returns the error of the session, and a time-out only if
   * there is none and the tasks were not gone in time. Without a session only
   * the tasks count.
   */
  lemma CallReturns(s: State, call: Step, steps: seq<Step>)
    requires Inv(s) && s.pc == Idle && call in {CallWait, CallShutdown, CallWaitUntilCancelled}
    requires Returns(Next(s, call), steps)
    ensures
      var u := Next(s, call);
      var t := Run(u, steps);
      if (call == CallShutdown && s.handle) || Heeds(u, steps) then ShutdownResult(t, Expires(u, steps))
      else WaitReturns(t, s.handle, Expires(u, steps))
  {
    BeginsUnderWay(s, call);
    BeginKeepsInv(s, call);
    CourseReturns(Next(s, call), steps, s.handle, false);
  }

  /**
   * A wait that has been asked to stop: its next own step raises the
   * cancellation and starts the shutdown, also when the session has ended by
   * then. From there the call ends within six steps of its own and of its
   * timers, and it returns what a shutdown returns.
   */
  lemma StopsWhenAsked(s: State, outside: seq<seq<Step>>)
    requires Inv(s) && s.pc.Selecting? && s.requested && !s.dropping && |outside| >= 6
    ensures
      var t := Next(s, Go);
      && t.cancelled && t.pc.Cancelling? && t.asked == [] && t.completed == s.completed
      && Nudged(t, outside).pc in {Idle, Gone}
      && forall steps :: Returns(t, steps) ==> ShutdownResult(Run(t, steps), Expires(t, steps))
  {
    var t := Next(s, Go);
    ShutdownKeepsInv(s);
    TimersEndCalls(t, outside);
    forall steps | Returns(t, steps)
      ensures ShutdownResult(Run(t, steps), Expires(t, steps))
    {
      CourseReturns(t, steps, true, false);
    }
  }

  /** Until then a wait goes on until the session has ended, and no longer. */
  lemma WaitsForTheSession(s: State)
    requires Inv(s) && (s.pc.Waiting? || (s.pc.Selecting? && !s.requested))
    ensures
      var t := Next(s, Go);
      if s.ended.None? then t == s
      else t.pc == Completed(EndingError(s.ended)) && t.completed && t.cancelled == s.cancelled
  {
  }

  // ----- Calls that nothing holds up -----

  lemma RunCons(s: State, step: Step, steps: seq<Step>)
    ensures Run(s, [step] + steps) == Run(Next(s, step), steps)
  {
    assert ([step] + steps)[0] == step && ([step] + steps)[1..] == steps;
  }

  /** The steps of a shutdown from its first request: two answers, the join, the empty tracker, and the clearing. */
  lemma ShutdownRuns(s: State, cancel: bool, disconnect: bool)
    requires Inv(s) && s.pc.Cancelling? && s.ended.Some? && s.active == 0
    ensures
      var t := Run(s, [Reply(cancel)] + ([Reply(disconnect)] + ([Go] + ([Go] + ([Go] + ([Go] + []))))));
      && t.pc == (if s.dropping then Gone else Idle) && !t.handle && t.completed
      && t.asked == [Asked(CancelForward, cancel), Asked(Disconnect, disconnect),
                     Asked(Join, s.ended != Some(WithError))]
      && (!s.dropping ==>
            t.last == Some(if !cancel then CancelFailed else if !disconnect then DisconnectFailed
                           else if s.ended == Some(WithError) then SessionFailed else Fine))
  {
    var first, second := if cancel then Fine else CancelFailed, if disconnect then Fine else DisconnectFailed;
    var s1 := s.(pc := Disconnecting(first), asked := [Asked(CancelForward, cancel)]);
    var s2 := s1.(pc := Joining(first, second), asked := s1.asked + [Asked(Disconnect, disconnect)]);
    CancelReplies(s, cancel);
    DisconnectReplies(s1, first, disconnect);
    RunTwo(s, Reply(cancel), s1, Reply(disconnect), s2, [Go] + ([Go] + ([Go] + ([Go] + []))));
    JoinRuns(s2, first, second);
  }

  lemma RunTwo(s: State, a: Step, s1: State, b: Step, s2: State, steps: seq<Step>)
    requires Next(s, a) == s1 && Next(s1, b) == s2
    ensures Run(s, [a] + ([b] + steps)) == Run(s2, steps)
  {
    RunCons(s, a, [b] + steps);
    RunCons(s1, b, steps);
  }

  lemma CancelReplies(s: State, ok: bool)
    requires Inv(s) && s.pc.Cancelling?
    ensures Next(s, Reply(ok))
         == s.(pc := Disconnecting(if ok then Fine else CancelFailed), asked := [Asked(CancelForward, ok)])
    ensures Inv(Next(s, Reply(ok)))
  {
    AskCancelKeepsInv(s, Reply(ok));
  }

  lemma DisconnectReplies(s: State, cancel: Verdict, ok: bool)
    requires Inv(s) && s.pc == Disconnecting(cancel)
    ensures Next(s, Reply(ok))
         == s.(pc := Joining(cancel, if ok then Fine else DisconnectFailed), asked := s.asked + [Asked(Disconnect, ok)])
    ensures Inv(Next(s, Reply(ok)))
  {
    AskDisconnectKeepsInv(s, Reply(ok));
  }

  lemma JoinRuns(s: State, cancel: Verdict, disconnect: Verdict)
    requires Inv(s) && s.pc == Joining(cancel, disconnect) && s.ended.Some? && s.active == 0
    ensures
      var t := Run(s, [Go] + ([Go] + ([Go] + ([Go] + []))));
      var failed := s.ended == Some(WithError);
      && t.pc == (if s.dropping then Gone else Idle) && !t.handle && t.completed
      && t.asked == s.asked + [Asked(Join, !failed)]
      && (!s.dropping ==> t.last == Some(And(And(cancel, disconnect), if failed then SessionFailed else Fine)))
  {
    var s1 := JoinSession(s, cancel, disconnect);
    RunCons(s, Go, [Go] + ([Go] + ([Go] + [])));
    assert s1.pc.Emptying? && s1.active == 0 && s1.completed && s1.dropping == s.dropping;
    EmptyRuns(s1);
  }

  lemma EmptyRuns(s: State)
    requires s.pc.Emptying? && s.active == 0
    ensures
      var t := Run(s, [Go] + ([Go] + ([Go] + [])));
      && t.pc == (if s.dropping then Gone else Idle) && !t.handle && t.completed == s.completed && t.asked == s.asked
      && (!s.dropping ==> t.last == Some(s.pc.result))
  {
    var outcome := Outcome(s.pc.result, true, true);
    var s1 := s.(pc := Asserting(outcome));
    var s2 := Check(s1, outcome);
    RunCons(s, Go, [Go] + ([Go] + []));
    RunCons(s1, Go, [Go] + []);
    RunCons(s2, Go, []);
  }

  /** The steps of a wait once the session has ended: its end, the handle, the cancellation and the drain. */
  lemma WaitRuns(s: State)
    requires Inv(s) && (s.pc.Waiting? || (s.pc.Selecting? && !s.requested)) && !s.dropping
    requires s.ended.Some? && s.active == 0
    ensures
      var t := Run(s, [Go] + ([Go] + ([Go] + ([Go] + []))));
      && t.pc == Idle && !t.handle && t.completed && t.cancelled
      && t.last == Some(EndingError(s.ended))
  {
    WaitsForTheSession(s);
    var s1 := AwaitSession(s);
    var s2 := s1.(handle := false, pc := Settling(EndingError(s.ended)));
    RunCons(s, Go, [Go] + ([Go] + ([Go] + [])));
    RunCons(s1, Go, [Go] + ([Go] + []));
    SettleRuns(s2, EndingError(s.ended));
  }

  lemma SettleRuns(s: State, result: Verdict)
    requires s.pc == Settling(result) && s.active == 0 && !s.dropping
    ensures Run(s, [Go] + ([Go] + [])) == s.(pc := Idle, cancelled := true, last := Some(result))
  {
    RunCons(s, Go, [Go] + []);
    DrainRuns(s.(cancelled := true, pc := Draining(result)), result);
  }

  lemma DrainRuns(s: State, result: Verdict)
    requires s.pc == Draining(result) && s.active == 0 && !s.dropping
    ensures Run(s, [Go] + []) == s.(pc := Idle, last := Some(result))
  {
    RunCons(s, Go, []);
  }

  /** Without a session every call cancels and waits for the tasks only. */
  lemma NothingToWaitFor(s: State, call: Step)
    requires Inv(s) && s.pc == Idle && !s.handle && s.active == 0
    requires call in {CallWait, CallShutdown, CallWaitUntilCancelled}
    ensures
      var t := Run(s, [call] + ([Go] + ([Go] + [])));
      t.pc == Idle && t.cancelled && t.last == Some(Fine)
  {
    RunCons(s, call, [Go] + ([Go] + []));
    SettleRuns(Next(s, call), Fine);
  }

  /** Each call of an owner with a session starts what it is called for. */
  lemma CallsStart(s: State)
    requires Inv(s) && s.pc == Idle && s.handle
    ensures Next(s, CallWait).pc == Waiting && Next(s, CallWaitUntilCancelled).pc == Selecting
    ensures Next(s, CallShutdown).pc == Cancelling && Next(s, CallShutdown).cancelled
    ensures Next(s, CallDrop).pc == Cancelling && Next(s, CallDrop).cancelled && Next(s, CallDrop).dropping
  {
  }
}
