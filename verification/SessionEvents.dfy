/**
 * Why things happen in a shell session: who raises the cancellation flag,
 * which event sends which message, and how the runner comes to an end.
 */
module SessionEvents {
  import opened Common
  import opened Session

  /** The runner has raised the flag. */
  predicate HasRaised(runner: Runner) {
    runner.Joining? || runner.Closing? || runner.Done?
  }

  ghost predicate LastSent(s: State, message: Sent) {
    s.sent != [] && s.sent[|s.sent| - 1] == message
  }

  /** The point at which the pump stands belongs to the last event taken. */
  ghost predicate AtItsEvent(s: State) {
    match s.pump
    case Woken(event) => LastIs(s, event)
    case Writing(data, _) => LastIs(s, Data(data))
    case AwaitingWrite(data, _) => LastIs(s, Data(data))
    case Resizing => LastIs(s, Resize)
    case AwaitingResize => LastIs(s, Resize)
    case Cancelling => LastIs(s, Cancel)
    case CancelClosing => LastIs(s, Cancel) && s.flag
    case Finishing => LastIs(s, Eof)
    case _ => true
  }

  /** Only a cancel event or the runner raises the flag; without it only the end of the input ends the pump well. */
  ghost predicate FlagInv(s: State) {
    && (s.flag ==> Cancel in s.received || HasRaised(s.runner))
    && (s.pump.Stopped? && s.pump.ok && !s.flag ==> LastIs(s, Eof) && LastSent(s, SentEof))
  }

  /** End-of-file is sent for the end of the input, and a close by the pump for a cancel event or after an error. */
  ghost predicate MessageInv(s: State) {
    && (SentEof in s.sent ==> Eof in s.received)
    && (SentClose in s.sent && !s.runner.Done? ==>
          s.pump.Stopped? && (if s.pump.ok then LastIs(s, Cancel) else s.pump.closeOk))
  }

  ghost predicate ReasonInv(s: State) {
    AtItsEvent(s) && FlagInv(s) && MessageInv(s)
  }

  lemma LastIn(s: State, event: Event)
    requires LastIs(s, event)
    ensures event in s.received
  {
  }

  lemma PumpKeepsPlace(s: State, cue: Cue)
    requires AtItsEvent(s) && PumpStep(s, cue).Some?
    ensures AtItsEvent(PumpStep(s, cue).value)
    ensures s.received <= PumpStep(s, cue).value.received
  {
  }

  /** A step of the pump that raises the flag has taken a cancel event. */
  lemma PumpRaises(s: State, cue: Cue)
    requires PumpStep(s, cue).Some? && !s.flag && PumpStep(s, cue).value.flag
    ensures s.pump.Cancelling?
  {
  }

  /** What a step of the pump adds to the messages. */
  lemma PumpSends(s: State, cue: Cue)
    requires PumpStep(s, cue).Some?
    ensures
      var t := PumpStep(s, cue).value;
      || t.sent == s.sent
      || (exists data :: t.sent == s.sent + [SentData(data)] && s.pump.AwaitingWrite?)
      || (t.sent == s.sent + [SentResize] && s.pump.AwaitingResize?)
      || (t.sent == s.sent + [SentEof] && s.pump.Finishing? && t.pump == Stopped(true, true))
      || (t.sent == s.sent + [SentClose] && s.pump.CancelClosing? && t.pump == Stopped(true, true))
      || (t.sent == s.sent + [SentClose] && s.pump.EmergencyClosing? && t.pump == Stopped(false, true))
  {
    if s.pump.AwaitingWrite? {
      WriteSends(s, cue);
    }
  }

  lemma WriteSends(s: State, cue: Cue)
    requires PumpStep(s, cue).Some? && s.pump.AwaitingWrite?
    ensures
      var t := PumpStep(s, cue).value;
      t.sent == s.sent || exists data :: t.sent == s.sent + [SentData(data)]
  {
    if !cue.Panics? {
      var left := s.pump.data[s.pump.written..];
      assert PumpStep(s, cue) == WriteAnswers(s, s.pump.data, s.pump.written, cue);
      assert Accept(s, left[..cue.count]).sent
          == if left[..cue.count] == [] then s.sent else s.sent + [SentData(left[..cue.count])];
    }
  }

  /** A good end without the flag is that of the finished input. */
  lemma PumpEndsWell(s: State, cue: Cue)
    requires PumpStep(s, cue).Some? && WireInv(s) && !s.flag
    requires PumpStep(s, cue).value.pump == Stopped(true, true) && !PumpStep(s, cue).value.flag
    requires s.pump.CancelClosing? ==> s.flag
    ensures s.pump.Finishing? && PumpStep(s, cue).value.sent == s.sent + [SentEof]
  {
  }

  lemma PumpStopsOnce(s: State, cue: Cue)
    requires PumpStep(s, cue).Some?
    ensures !s.pump.Stopped?
    ensures PumpStep(s, cue).value.pump.Stopped? && PumpStep(s, cue).value.pump.ok ==>
      PumpStep(s, cue).value.pump == Stopped(true, true)
  {
  }

  lemma PumpKeepsReasons(s: State, cue: Cue)
    requires Inv(s) && ReasonInv(s) && PumpStep(s, cue).Some?
    ensures ReasonInv(PumpStep(s, cue).value)
  {
    PumpKeepsPlace(s, cue);
    PumpKeepsFlag(s, cue);
    PumpKeepsMessages(s, cue);
  }

  lemma PumpKeepsFlag(s: State, cue: Cue)
    requires WireInv(s) && AtItsEvent(s) && FlagInv(s) && PumpStep(s, cue).Some?
    ensures FlagInv(PumpStep(s, cue).value)
  {
    var t := PumpStep(s, cue).value;
    PumpKeepsPlace(s, cue);
    PumpStopsOnce(s, cue);
    PumpLeavesOutput(s, cue);
    if !s.flag && t.flag {
      PumpRaises(s, cue);
    }
    if t.pump == Stopped(true, true) && !t.flag {
      PumpEndsWell(s, cue);
      FinishTakesNothing(s, cue);
    }
  }

  lemma FinishTakesNothing(s: State, cue: Cue)
    requires PumpStep(s, cue).Some? && s.pump.Finishing?
    ensures PumpStep(s, cue).value.received == s.received
  {
  }

  lemma PumpKeepsMessages(s: State, cue: Cue)
    requires AtItsEvent(s) && MessageInv(s) && PumpStep(s, cue).Some?
    ensures MessageInv(PumpStep(s, cue).value)
  {
    PumpKeepsPlace(s, cue);
    PumpSends(s, cue);
    PumpStopsOnce(s, cue);
    PumpLeavesOutput(s, cue);
    if s.pump.CancelClosing? {
      ClosingTakesNothing(s, cue);
    }
  }

  lemma ClosingTakesNothing(s: State, cue: Cue)
    requires PumpStep(s, cue).Some? && s.pump.CancelClosing?
    ensures PumpStep(s, cue).value.received == s.received
  {
  }

  lemma RunnerKeepsReasons(s: State, cue: Cue)
    requires Inv(s) && ReasonInv(s) && RunnerStep(s, cue).Some?
    ensures ReasonInv(RunnerStep(s, cue).value)
  {
    RunnerLeavesPlace(s, cue);
    RunnerKeepsMarks(s, cue);
  }

  lemma RunnerLeavesPlace(s: State, cue: Cue)
    requires RunnerStep(s, cue).Some?
    ensures
      var t := RunnerStep(s, cue).value;
      && t.pump == s.pump && t.received == s.received
      && (t.sent == s.sent || (s.runner.Closing? && t.runner.Done? && t.sent == s.sent + [SentClose]))
      && (t.flag == s.flag || (s.runner.Raising? && t.flag && t.runner.Joining?))
      && (HasRaised(s.runner) ==> HasRaised(t.runner)) && (s.runner.Done? ==> t.runner.Done?)
  {
  }

  lemma RunnerKeepsMarks(s: State, cue: Cue)
    requires FlagInv(s) && MessageInv(s) && RunnerStep(s, cue).Some?
    requires s.runner.Closing? ==> s.flag
    ensures FlagInv(RunnerStep(s, cue).value) && MessageInv(RunnerStep(s, cue).value)
  {
    RunnerLeavesPlace(s, cue);
  }

  lemma {:induction false} RunKeepsReasons(s: State, steps: seq<Step>)
    requires Inv(s) && ReasonInv(s)
    ensures ReasonInv(Run(s, steps))
    decreases |steps|
  {
    if steps != [] {
      if steps[0].PumpMoves? {
        if PumpStep(s, steps[0].cue).Some? {
          PumpKeepsReasons(s, steps[0].cue);
        }
      } else if RunnerStep(s, steps[0].cue).Some? {
        RunnerKeepsReasons(s, steps[0].cue);
      }
      RunSingle(s, steps[0]);
      RunKeepsInv(s, [steps[0]]);
      RunKeepsReasons(Next(s, steps[0]), steps[1..]);
    }
  }

  /**
   * In every run: the flag is up only for a cancel event or after the runner
   * has raised it; end-of-file is sent only when the input has ended; a pump
   * that has ended well without the flag has taken the end of the input last
   * and sent end-of-file last; and before the runner closes, a close is sent
   * only for a cancel event or after an error.
   */
  lemma EveryRunHasReasons(steps: seq<Step>)
    ensures
      var s := Run(START, steps);
      && (s.flag ==> Cancel in s.received || s.runner.Joining? || s.runner.Closing? || s.runner.Done?)
      && (SentEof in s.sent ==> Eof in s.received)
      && (s.pump.Stopped? && s.pump.ok && !s.flag ==> LastIs(s, Eof) && LastSent(s, SentEof))
      && (SentClose in s.sent && !s.runner.Done? ==> LastIs(s, Cancel) || (s.pump.Stopped? && !s.pump.ok))
  {
    StartInv();
    RunKeepsReasons(START, steps);
  }

  // ----- How the runner ends -----

  /** After the output: the flag goes up, the pump is joined, and an open channel is closed. */
  lemma RunnerEnds(s: State, outputOk: bool, closes: bool)
    requires s.runner == Raising(outputOk) && s.pump.Stopped?
    ensures
      var joined := Next(Next(s, RunnerMoves(Go)), RunnerMoves(Go));
      var cue := if s.life.closed then Go else if closes then Succeeds else Fails;
      var t := if s.pump.ok then Next(joined, RunnerMoves(cue)) else joined;
      var closed := if s.pump.ok then s.life.closed || closes else s.pump.closeOk;
      && t.flag && t.runner.Done?
      && t.sent == (if s.pump.ok && !s.life.closed && closes then s.sent + [SentClose] else s.sent)
      && t.runner.outcome == (if !outputOk then OutputError
                              else if !s.pump.ok then InputError
                              else if !closed then CloseError
                              else Success(s.inputBytes, s.outputBytes))
  {
    var s1 := s.(flag := true, runner := Joining(outputOk));
    assert Next(s, RunnerMoves(Go)) == s1;
    if s.pump.ok {
      assert Next(s1, RunnerMoves(Go)) == s1.(runner := Closing(outputOk));
    }
  }

  /** A pump that was lost to a second panic is reported, and nothing is closed. */
  lemma RunnerLosesThePump(s: State, outputOk: bool)
    requires s.runner == Raising(outputOk) && s.pump.Lost?
    ensures
      var t := Next(Next(s, RunnerMoves(Go)), RunnerMoves(Go));
      && t.runner.Done? && t.sent == s.sent
      && t.runner.outcome == if outputOk then PumpPanicked else OutputError
  {
    assert Next(s, RunnerMoves(Go)) == s.(flag := true, runner := Joining(outputOk));
  }

  /** The join waits for a pump that has not ended. */
  lemma RunnerWaits(s: State, cue: Cue)
    requires s.runner.Joining? && !s.pump.Stopped? && !s.pump.Lost?
    ensures Next(s, RunnerMoves(cue)) == s
  {
  }
}
