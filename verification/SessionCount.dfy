/**
 * When `input_bytes` is the number of bytes the transport took. A write that
 * is cancelled half way is not counted, so the answer depends on the events.
 * Both directions are proved: under the condition every successful run counts
 * exactly, and without it some run does not, which is built step by step from
 * the events.
 */
module SessionCount {
  import opened Common
  import opened Session

  predicate GoesOn(event: Event) {
    event.Data? || event.Resize?
  }

  /** What a pump can take: only the last event may be one that ends it. */
  predicate Feasible(events: seq<Event>) {
    forall i :: 0 <= i < |events| - 1 ==> GoesOn(events[i])
  }

  /** The last event is data that a cancelled write can cut short, visibly in a 64-bit count. */
  predicate CutShort(events: seq<Event>) {
    && events != []
    && events[|events| - 1].Data? && events[|events| - 1].data != []
    && |Offered(events[..|events| - 1])| < U64_MAX
  }

  /** The same with two bytes or more, so that a write can be given up with some taken and some left. */
  predicate CutInTwo(events: seq<Event>) {
    CutShort(events) && |events[|events| - 1].data| >= 2
  }

  /** A write that is given up has left some of its bytes. */
  predicate StepIsPrompt(s: State, step: Step) {
    step.PumpMoves? && step.cue.Interrupts? && s.pump.AwaitingWrite? ==>
      s.pump.written + step.cue.count < |s.pump.data|
  }

  /** The transport never takes all that is left and still reports the write as given up. */
  predicate Prompt(s: State, steps: seq<Step>)
    decreases |steps|
  {
    steps == [] || (StepIsPrompt(s, steps[0]) && Prompt(Next(s, steps[0]), steps[1..]))
  }

  /** A run that succeeds after taking exactly these events. */
  ghost predicate SucceedsAfter(steps: seq<Step>, events: seq<Event>) {
    var s := Run(START, steps);
    s.received == events && s.runner.Done? && s.runner.outcome.Success?
  }

  ghost predicate CountIsExact(steps: seq<Step>)
    requires Run(START, steps).runner.Done? && Run(START, steps).runner.outcome.Success?
  {
    Run(START, steps).runner.outcome.input == Saturate(|Transported(Run(START, steps).sent)|)
  }

  ghost predicate AlwaysExact(events: seq<Event>) {
    forall steps :: SucceedsAfter(steps, events) ==> CountIsExact(steps)
  }

  ghost predicate AlwaysExactIfPrompt(events: seq<Event>) {
    forall steps :: SucceedsAfter(steps, events) && Prompt(START, steps) ==> CountIsExact(steps)
  }

  // ----- What a pump takes is feasible -----

  predicate TakesMore(pump: Pump) {
    pump.Receiving? || pump.Polling? || MidWrite(pump) || pump.Resizing? || pump.AwaitingResize?
  }

  predicate FeasibleSoFar(s: State) {
    && Feasible(s.received)
    && (TakesMore(s.pump) ==> forall i :: 0 <= i < |s.received| ==> GoesOn(s.received[i]))
    && (s.pump.Woken? ==> s.received != [] && s.received[|s.received| - 1] == s.pump.event)
  }

  lemma PumpTakesFeasibly(s: State, cue: Cue)
    requires FeasibleSoFar(s) && PumpStep(s, cue).Some?
    ensures FeasibleSoFar(PumpStep(s, cue).value)
  {
    PumpMovesOn(s, cue);
  }

  /** A step takes one event while more can be taken, or leaves the events as they are. */
  lemma PumpMovesOn(s: State, cue: Cue)
    requires PumpStep(s, cue).Some?
    ensures
      var t := PumpStep(s, cue).value;
      || TakesEvent(s, t)
      || (&& t.received == s.received && !t.pump.Woken?
          && (TakesMore(t.pump) ==> TakesMore(s.pump) || (s.pump.Woken? && GoesOn(s.pump.event))))
  {
  }

  lemma RunnerTakesNothing(s: State, cue: Cue)
    requires RunnerStep(s, cue).Some?
    ensures RunnerStep(s, cue).value.received == s.received && RunnerStep(s, cue).value.pump == s.pump
  {
  }

  lemma {:induction false} RunTakesFeasibly(s: State, steps: seq<Step>)
    requires FeasibleSoFar(s)
    ensures FeasibleSoFar(Run(s, steps))
    decreases |steps|
  {
    if steps != [] {
      if steps[0].PumpMoves? {
        if PumpStep(s, steps[0].cue).Some? {
          PumpTakesFeasibly(s, steps[0].cue);
        }
      } else if RunnerStep(s, steps[0].cue).Some? {
        RunnerTakesNothing(s, steps[0].cue);
      }
      RunTakesFeasibly(Next(s, steps[0]), steps[1..]);
    }
  }

  /** In every run only the last event taken can be one that ends the pump. */
  lemma EveryRunTakesFeasibly(steps: seq<Step>)
    ensures Feasible(Run(START, steps).received)
  {
    RunTakesFeasibly(START, steps);
  }

  // ----- The count is exact -----

  lemma ExactUnlessCutShort(steps: seq<Step>)
    requires SucceedsAfter(steps, Run(START, steps).received)
    requires !CutShort(Run(START, steps).received)
    ensures CountIsExact(steps)
  {
    EveryRunConservesInput(steps);
    SuccessMeans(steps);
    var s := Run(START, steps);
    if s.received != [] {
      OfferedLast(s, s.received[|s.received| - 1]);
    }
    assert |s.whole| <= |Transported(s.sent)| <= |Offered(s.received)|;
  }

  /** When all that was offered has been taken, all of it is whole. */
  ghost predicate WholeIfAll(s: State) {
    s.pump.Stopped? && s.pump.ok && s.accepted == Offered(s.received) ==> s.whole == s.accepted
  }

  lemma PumpKeepsWhole(s: State, cue: Cue)
    requires InputInv(s) && WholeIfAll(s) && StepIsPrompt(s, PumpMoves(cue)) && PumpStep(s, cue).Some?
    ensures WholeIfAll(PumpStep(s, cue).value)
  {
    if MidWrite(s.pump) {
      OfferedLast(s, Data(s.pump.data));
      assert |Offered(s.received)| == |s.whole| + |s.pump.data|;
    }
  }

  lemma RunnerKeepsWhole(s: State, cue: Cue)
    requires WholeIfAll(s) && RunnerStep(s, cue).Some?
    ensures WholeIfAll(RunnerStep(s, cue).value)
  {
  }

  lemma {:induction false} PromptRunIsWhole(s: State, steps: seq<Step>)
    requires Inv(s) && WholeIfAll(s) && Prompt(s, steps)
    ensures WholeIfAll(Run(s, steps))
    decreases |steps|
  {
    if steps != [] {
      if steps[0].PumpMoves? {
        if PumpStep(s, steps[0].cue).Some? {
          PumpKeepsWhole(s, steps[0].cue);
        }
      } else if RunnerStep(s, steps[0].cue).Some? {
        RunnerKeepsWhole(s, steps[0].cue);
      }
      RunSingle(s, steps[0]);
      RunKeepsInv(s, [steps[0]]);
      PromptRunIsWhole(Next(s, steps[0]), steps[1..]);
    }
  }

  lemma ExactUnlessCutInTwo(steps: seq<Step>)
    requires SucceedsAfter(steps, Run(START, steps).received) && Prompt(START, steps)
    requires CutShort(Run(START, steps).received) && !CutInTwo(Run(START, steps).received)
    ensures CountIsExact(steps)
  {
    EveryRunConservesInput(steps);
    SuccessMeans(steps);
    StartInv();
    PromptRunIsWhole(START, steps);
    RunKeepsInv(START, steps);
    var s := Run(START, steps);
    OfferedLast(s, s.received[|s.received| - 1]);
    OneByteIsAllOrNothing(s.whole, s.accepted, OfferedBefore(s), s.received[|s.received| - 1].data);
  }

  lemma OneByteIsAllOrNothing(whole: bytes, accepted: bytes, before: bytes, last: bytes)
    requires |last| == 1 && whole <= accepted <= before + last
    requires whole == before || whole == before + last
    ensures accepted == whole || accepted == before + last
  {
  }

  // ----- A run that is cut short -----

  predicate Uninterrupted(steps: seq<Step>) {
    forall k :: 0 <= k < |steps| ==> !(steps[k].PumpMoves? && steps[k].cue.Interrupts?)
  }

  lemma {:induction false} UninterruptedIsPrompt(s: State, xs: seq<Step>, ys: seq<Step>)
    requires Uninterrupted(xs) && Prompt(Run(s, xs), ys)
    ensures Prompt(s, xs + ys)
    decreases |xs|
  {
    if xs == [] {
      assert xs + ys == ys;
    } else {
      assert (xs + ys)[0] == xs[0] && (xs + ys)[1..] == xs[1..] + ys;
      UninterruptedIsPrompt(Next(s, xs[0]), xs[1..], ys);
    }
  }

  lemma RunThree(s: State, a: Step, b: Step, c: Step)
    ensures Run(s, [a, b, c]) == Next(Next(Next(s, a), b), c)
  {
    assert [a, b, c][1..] == [b, c] && [b, c][1..] == [c];
    RunSingle(Next(Next(s, a), b), c);
    assert Run(Next(s, a), [b, c]) == Run(Next(Next(s, a), b), [c]);
  }

  predicate AtRest(s: State) {
    && s.pump == Receiving && !s.flag && s.runner == Reading
    && s.life == Lifecycle(false, false)
    && s.printed == s.produced
  }

  /** Taking an event up to its dispatch. */
  lemma TakeOne(s: State, event: Event)
    requires s.pump == Receiving && !s.flag
    ensures Run(s, [PumpMoves(Go), PumpMoves(Take(event)), PumpMoves(Go)])
         == Dispatch(s.(received := s.received + [event]), event)
  {
    RunThree(s, PumpMoves(Go), PumpMoves(Take(event)), PumpMoves(Go));
    var polling := s.(pump := Polling);
    var woken := polling.(received := s.received + [event], pump := Woken(event));
    assert Next(s, PumpMoves(Go)) == polling;
    assert Next(polling, PumpMoves(Take(event))) == woken;
  }

  /** A resize, forwarded at once. */
  lemma ForwardOne(s: State)
    requires s.pump == Resizing && !s.flag
    ensures Run(s, [PumpMoves(Go), PumpMoves(Succeeds)])
         == s.(sent := s.sent + [SentResize], pump := Receiving)
  {
    var awaiting := s.(pump := AwaitingResize);
    assert Next(s, PumpMoves(Go)) == awaiting;
    assert [PumpMoves(Go), PumpMoves(Succeeds)][1..] == [PumpMoves(Succeeds)];
    RunSingle(awaiting, PumpMoves(Succeeds));
  }

  lemma StartWrite(s: State, data: bytes)
    requires s.pump == Writing(data, 0) && data != [] && !s.flag && s.life == Lifecycle(false, false)
    ensures Next(s, PumpMoves(Go)) == s.(pump := AwaitingWrite(data, 0))
  {
  }

  /** Data that the transport takes in one go. */
  lemma WriteOne(s: State, data: bytes) returns (steps: seq<Step>)
    requires s.pump == Writing(data, 0) && !s.flag && s.life == Lifecycle(false, false)
    ensures
      var r := Run(s, steps);
      && r == s.(accepted := r.accepted, sent := r.sent, whole := r.whole, inputBytes := r.inputBytes,
                 pump := Receiving)
      && r.whole == s.whole + data
    ensures Uninterrupted(steps)
  {
    if data == [] {
      steps := [PumpMoves(Go)];
      RunSingle(s, PumpMoves(Go));
    } else {
      steps := [PumpMoves(Go), PumpMoves(Accepts(|data|)), PumpMoves(Go)];
      RunThree(s, PumpMoves(Go), PumpMoves(Accepts(|data|)), PumpMoves(Go));
      StartWrite(s, data);
      var awaiting := s.(pump := AwaitingWrite(data, 0));
      assert data[0..][..|data|] == data;
      var written := Accept(awaiting, data).(pump := Writing(data, |data|));
      assert Next(awaiting, PumpMoves(Accepts(|data|))) == written;
    }
  }

  /** Every sequence of data and resizes can be taken and forwarded in full. */
  lemma {:induction false} Forwarded(events: seq<Event>) returns (steps: seq<Step>)
    requires forall i :: 0 <= i < |events| ==> GoesOn(events[i])
    ensures AtRest(Run(START, steps)) && Run(START, steps).received == events
    ensures Uninterrupted(steps)
    decreases |events|
  {
    if events == [] {
      steps := [];
    } else {
      var before := Forwarded(events[..|events| - 1]);
      var event := events[|events| - 1];
      assert events == events[..|events| - 1] + [event];
      steps := ForwardedMore(before, event);
    }
  }

  lemma ForwardedInFull(steps: seq<Step>)
    requires AtRest(Run(START, steps))
    ensures
      var s := Run(START, steps);
      s.accepted == Offered(s.received) && s.inputBytes == Saturate(|Offered(s.received)|)
  {
    StartInv();
    RunKeepsInv(START, steps);
  }

  lemma ForwardedMore(before: seq<Step>, event: Event) returns (steps: seq<Step>)
    requires AtRest(Run(START, before)) && GoesOn(event) && Uninterrupted(before)
    ensures AtRest(Run(START, steps)) && Uninterrupted(steps)
    ensures Run(START, steps).received == Run(START, before).received + [event]
  {
    var s := Run(START, before);
    var take := [PumpMoves(Go), PumpMoves(Take(event)), PumpMoves(Go)];
    TakeOne(s, event);
    var t := Dispatch(s.(received := s.received + [event]), event);
    var rest;
    if event.Data? {
      rest := WriteOne(t, event.data);
    } else {
      rest := [PumpMoves(Go), PumpMoves(Succeeds)];
      ForwardOne(t);
    }
    RunAppend(START, before, take);
    RunAppend(START, before + take, rest);
    steps := before + take + rest;
  }

  /** The runner ends while a write is under way; one byte of it has been taken. */
  lemma CancelledAfterOneByte(s: State, data: bytes) returns (steps: seq<Step>)
    requires s.pump == Writing(data, 0) && data != [] && !s.flag && s.life == Lifecycle(false, false)
    requires s.runner == Reading
    ensures
      var r := Run(s, steps);
      && r.runner == Done(Success(s.inputBytes, s.outputBytes), true, true)
      && r.received == s.received && |r.accepted| == |s.accepted| + 1
    ensures |data| >= 2 ==> Prompt(s, steps)
  {
    steps := [PumpMoves(Go), RunnerMoves(Ends), RunnerMoves(Go)];
    RunThree(s, PumpMoves(Go), RunnerMoves(Ends), RunnerMoves(Go));
    StartWrite(s, data);
    var s1 := s.(pump := AwaitingWrite(data, 0));
    var s2 := s1.(runner := Raising(true));
    var s3 := s2.(runner := Joining(true), flag := true);
    assert Next(s1, RunnerMoves(Ends)) == s2 && Next(s2, RunnerMoves(Go)) == s3;
    var more := [PumpMoves(Interrupts(1)), RunnerMoves(Go), RunnerMoves(Succeeds)];
    InterruptedAndClosed(s3, data);
    RunAppend(s, steps, more);
    if |data| >= 2 {
      UninterruptedIsPrompt(Next(s3, PumpMoves(Interrupts(1))), more[1..], []);
      assert more[1..] + [] == more[1..];
      UninterruptedIsPrompt(s, steps, more);
    }
    steps := steps + more;
  }

  lemma InterruptedAndClosed(s: State, data: bytes)
    requires s.pump == AwaitingWrite(data, 0) && data != [] && s.flag && s.life == Lifecycle(false, false)
    requires s.runner == Joining(true)
    ensures
      var r := Run(s, [PumpMoves(Interrupts(1)), RunnerMoves(Go), RunnerMoves(Succeeds)]);
      && r.runner == Done(Success(s.inputBytes, s.outputBytes), true, true)
      && r.received == s.received && |r.accepted| == |s.accepted| + 1
  {
    RunThree(s, PumpMoves(Interrupts(1)), RunnerMoves(Go), RunnerMoves(Succeeds));
    var t := StopOk(Accept(s, data[0..][..1]));
    assert Next(s, PumpMoves(Interrupts(1))) == t;
    assert Next(t, RunnerMoves(Go)) == t.(runner := Closing(true));
  }

  /** All earlier events are forwarded; of the last one a single byte is. */
  lemma LastWriteCut(events: seq<Event>) returns (steps: seq<Step>)
    requires Feasible(events) && CutShort(events)
    ensures
      var r := Run(START, steps);
      && r.received == events
      && r.runner.Done? && r.runner.outcome.Success?
      && r.runner.outcome.input == Saturate(|Offered(events[..|events| - 1])|)
      && |r.accepted| == |Offered(events[..|events| - 1])| + 1
    ensures CutInTwo(events) ==> Prompt(START, steps)
  {
    var n := |events| - 1;
    var before := Forwarded(events[..n]);
    ForwardedInFull(before);
    var s := Run(START, before);
    var take := [PumpMoves(Go), PumpMoves(Take(events[n])), PumpMoves(Go)];
    TakeOne(s, events[n]);
    var t := Dispatch(s.(received := s.received + [events[n]]), events[n]);
    var rest := CancelledAfterOneByte(t, events[n].data);
    RunAppend(START, before, take);
    RunAppend(START, before + take, rest);
    steps := before + take + rest;
    if CutInTwo(events) {
      UninterruptedIsPrompt(START, before + take, rest);
    }
    assert events == events[..n] + [events[n]];
  }

  /** A run in which the last write is cut short and the count is wrong. */
  lemma Miscounted(events: seq<Event>) returns (steps: seq<Step>)
    requires Feasible(events) && CutShort(events)
    ensures SucceedsAfter(steps, events) && !CountIsExact(steps)
    ensures CutInTwo(events) ==> Prompt(START, steps)
  {
    steps := LastWriteCut(events);
    StartInv();
    RunKeepsInv(START, steps);
  }

  /**
   * For every sequence of events a pump can take: the count of a successful
   * run is exact, whatever the schedule and the transport, if and only if the
   * last event cannot be cut short.
   */
  lemma CountExactUnlessCutShort(events: seq<Event>)
    requires Feasible(events)
    ensures AlwaysExact(events) <==> !CutShort(events)
  {
    if CutShort(events) {
      var steps := Miscounted(events);
      assert SucceedsAfter(steps, events);
    } else {
      forall steps | SucceedsAfter(steps, events)
        ensures CountIsExact(steps)
      {
        ExactUnlessCutShort(steps);
      }
    }
  }

  /** The same for a transport that never reports a write as given up after taking all of it. */
  lemma CountExactUnlessCutInTwo(events: seq<Event>)
    requires Feasible(events)
    ensures AlwaysExactIfPrompt(events) <==> !CutInTwo(events)
  {
    if CutInTwo(events) {
      var steps := Miscounted(events);
      assert SucceedsAfter(steps, events);
    } else {
      forall steps | SucceedsAfter(steps, events) && Prompt(START, steps)
        ensures CountIsExact(steps)
      {
        if CutShort(events) {
          ExactUnlessCutInTwo(steps);
        } else {
          ExactUnlessCutShort(steps);
        }
      }
    }
  }
}
