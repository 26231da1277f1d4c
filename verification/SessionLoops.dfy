/**
 * The loops of the shell session as code: `recv_cancellable`,
 * `write_all_to_shell` and `pump_input_events` over the native writer, and
 * `copy_session_to_output`. What the user, the transport and the other thread
 * do between two steps is a script. Every run of a loop is a run of the step
 * machine in `Session`, so all that is proved there holds of the loops.
 */
module SessionLoops {
  import opened Common
  import opened Session
  import opened SessionScript
  import SessionEvents
  import ChannelReader

  /** `Unfinished`: the script has ended and the thread is still waiting. */
  datatype Poll = Received(event: Event) | Cancelled | TimedOut | NothingMore

  datatype Written = All | Interrupted | WriteFailed | WriteUnfinished

  datatype PumpEnd = Ended(ok: bool) | Unfinished

  class InputPump {
    var script: seq<Happening>
    var flag: bool
    var inputFinished: bool
    var closed: bool
    var sent: seq<Sent>
    ghost var s: State
    ghost var steps: seq<Step>

    constructor (script: seq<Happening>)
      ensures Valid() && s.pump == Receiving && this.script == script
    {
      this.script, flag, inputFinished, closed, sent := script, false, false, false, [];
      s, steps := START, [];
    }

    /** The fields are those of a state the step machine reaches. */
    ghost predicate Valid()
      reads this
    {
      && s == Run(START, steps)
      && s.flag == flag && s.life == Lifecycle(inputFinished, closed) && s.sent == sent
      && (s.runner == Reading || flag)
    }

    ghost method Log(step: Step)
      requires s == Run(START, steps)
      modifies this`s, this`steps
      ensures s == Next(old(s), step) && s == Run(START, steps)
    {
      ghost var more := RunThen(START, steps, step);
      s, steps := Next(s, step), more;
    }

    /** The script has ended and the pump still waits. */
    ghost predicate Waiting()
      reads this
    {
      script == [] && !Passing(s.pump) && !Halted(s.pump)
    }

    /** Everything from here to the end is as it was going to be. */
    twostate predicate OnCourse()
      reads this
    {
      Drive(s, script) == old(Drive(s, script)) && |script| <= |old(script)|
    }

    /** The next happening; the flag may go up first, by the runner's doing. */
    method Await() returns (cue: Option<Cue>)
      requires Valid() && !Passing(s.pump) && !Halted(s.pump)
      modifies this`script, this`flag, this`s, this`steps
      ensures Valid() && (old(flag) ==> flag)
      ensures s == old(s).(flag := flag, runner := s.runner)
      ensures cue.None? ==> Waiting() && OnCourse() && s == old(s)
      ensures cue.Some? ==> |script| < |old(script)|
      ensures cue.Some? ==> Drive(Moved(s, cue.value), script) == old(Drive(s, script))
    {
      if script == [] {
        return None;
      }
      var happening := script[0];
      script := script[1..];
      if happening.raised && !flag {
        Log(RunnerMoves(Ends));
        Log(RunnerMoves(Go));
        flag := true;
      }
      return Some(happening.cue);
    }

    ghost method LogReceiving(cue: Cue)
      requires s == Run(START, steps) && s.pump == Receiving
      modifies this`s, this`steps
      ensures s == Run(START, steps) && s == Moved(old(s), cue)
      ensures s == if old(s.flag) then StopOk(old(s)) else old(s).(pump := Polling)
    {
      Log(PumpMoves(Go));
    }

    ghost method LogTaken(event: Event)
      requires s == Run(START, steps) && s.pump == Polling
      modifies this`s, this`steps
      ensures s == Run(START, steps) && s == Moved(old(s), Take(event))
      ensures s == old(s).(received := old(s.received) + [event], pump := Woken(event))
    {
      Log(PumpMoves(Take(event)));
    }

    ghost method LogIdle(cue: Cue)
      requires s == Run(START, steps) && s.pump == Polling && !cue.Take?
      modifies this`s, this`steps
      ensures s == Run(START, steps) && s == Moved(old(s), cue)
      ensures s == old(s).(pump := Receiving)
    {
      Log(PumpMoves(Idle));
    }

    ghost method LogWoken(event: Event, cue: Cue)
      requires s == Run(START, steps) && s.pump == Woken(event)
      modifies this`s, this`steps
      ensures s == Run(START, steps) && s == Moved(old(s), cue)
      ensures s == if old(s.flag) then StopOk(old(s)) else Dispatch(old(s), event)
    {
      Log(PumpMoves(Go));
    }

    ghost method LogWriting(data: bytes, written: nat, cue: Cue)
      requires s == Run(START, steps) && s.pump == Writing(data, written) && written < |data|
      modifies this`s, this`steps
      ensures s == Run(START, steps) && s == Moved(old(s), cue)
      ensures s == if old(s.life.closed || s.life.inputFinished) then Fail(old(s))
                   else if old(s.flag) then StopOk(old(s))
                   else old(s).(pump := AwaitingWrite(data, written))
    {
      Log(PumpMoves(Go));
    }

    ghost method LogAnswer(data: bytes, written: nat, left: bytes, cue: Cue)
      requires s == Run(START, steps) && s.pump == AwaitingWrite(data, written)
      requires written < |data| && left == data[written..]
      modifies this`s, this`steps
      ensures s == Run(START, steps) && s == Moved(old(s), cue)
      ensures s.flag == old(s.flag) && s.life == old(s.life) && s.inputBytes == old(s.inputBytes)
      ensures s.runner == old(s.runner)
      ensures
        var answer := Answer(cue, |left|, old(s.flag));
        var taken := left[..answer.count];
        && s.sent == old(s.sent) + (if taken == [] then [] else [SentData(taken)])
        && s.pump == if answer.Accepts? && answer.count > 0 then Writing(data, written + answer.count)
                     else if answer.Interrupts? then Stopped(true, true)
                     else EmergencyClosing
    {
      Log(PumpMoves(Answer(cue, |left|, s.flag)));
    }

    ghost method LogResizing(cue: Cue)
      requires s == Run(START, steps) && s.pump == Resizing
      modifies this`s, this`steps
      ensures s == Run(START, steps) && s == Moved(old(s), cue)
      ensures s == if old(s.flag) then StopOk(old(s)) else old(s).(pump := AwaitingResize)
    {
      Log(PumpMoves(Go));
    }

    ghost method LogResized(cue: Cue)
      requires s == Run(START, steps) && s.pump == AwaitingResize
      modifies this`s, this`steps
      ensures s == Run(START, steps) && s == Moved(old(s), cue)
      ensures s == if cue.Fails? then Fail(old(s))
                   else if cue.Interrupts? && old(s.flag) then StopOk(old(s))
                   else old(s).(sent := old(s.sent) + [SentResize], pump := Receiving)
    {
      Log(PumpMoves(Meant(s, cue)));
    }

    ghost method LogClosing(cue: Cue)
      requires s == Run(START, steps) && (s.pump == CancelClosing || s.pump == EmergencyClosing)
      modifies this`s, this`steps
      ensures s == Run(START, steps) && s == Moved(old(s), cue)
      ensures
        var ok := old(s.life.closed) || !cue.Fails?;
        var after := if ok && !old(s.life.closed) then MarkClosed(old(s)) else old(s);
        s == after.(pump := if old(s.pump) == EmergencyClosing then Stopped(false, ok)
                            else if ok then Stopped(true, true) else EmergencyClosing)
    {
      Log(PumpMoves(Meant(s, cue)));
    }

    ghost method LogFinishing(cue: Cue)
      requires s == Run(START, steps) && s.pump == Finishing
      modifies this`s, this`steps
      ensures s == Run(START, steps) && s == Moved(old(s), cue)
      ensures s == if old(s.life.closed || s.life.inputFinished) then StopOk(old(s))
                   else if cue.Fails? then Fail(old(s))
                   else StopOk(old(s).(life := old(s.life).(inputFinished := true), sent := old(s.sent) + [SentEof]))
    {
      Log(PumpMoves(Meant(s, cue)));
    }

    ghost method LogPassing()
      requires s == Run(START, steps) && Passing(s.pump)
      modifies this`s, this`steps
      ensures s == Run(START, steps) && s == Passed(old(s))
      ensures Drive(s, script) == old(Drive(s, script))
    {
      Log(PumpMoves(Go));
    }

    /** Polls until an event comes or the flag is up, which wins over the event. */
    method RecvCancellable() returns (poll: Poll)
      requires Valid() && s.pump == Receiving
      modifies this`script, this`flag, this`s, this`steps
      ensures Valid() && OnCourse()
      ensures poll != TimedOut
      ensures s.inputBytes == old(s.inputBytes)
      ensures poll == NothingMore ==> Waiting()
      ensures poll == Cancelled ==> s.pump == Stopped(true, true)
      ensures poll.Received? ==> s.pump == Dispatch(s, poll.event).pump && |script| < |old(script)|
      ensures poll.Received? ==> !flag
    {
      while true
        invariant Valid() && s.pump == Receiving && s.inputBytes == old(s.inputBytes)
        invariant OnCourse()
        decreases |script|
      {
        var now := Await();
        if now.None? {
          return NothingMore;
        }
        LogReceiving(now.value);
        if flag {
          return Cancelled;
        }
        poll := PollOnce();
        if poll != TimedOut {
          return;
        }
      }
    }

    /** One bounded wait for an event, and the look at the flag after waking up. */
    method PollOnce() returns (poll: Poll)
      requires Valid() && s.pump == Polling
      modifies this`script, this`flag, this`s, this`steps
      ensures Valid() && OnCourse()
      ensures s.inputBytes == old(s.inputBytes)
      ensures poll == NothingMore ==> Waiting()
      ensures poll == TimedOut ==> s.pump == Receiving
      ensures poll == Cancelled ==> s.pump == Stopped(true, true)
      ensures poll.Received? ==> s.pump == Dispatch(s, poll.event).pump && |script| < |old(script)|
      ensures poll.Received? ==> !flag
    {
      var answer := Await();
      if answer.None? {
        return NothingMore;
      }
      if !answer.value.Take? {
        LogIdle(answer.value);
        return TimedOut;
      }
      var event := answer.value.event;
      LogTaken(event);
      poll := AfterWakeup(event);
    }

    /** An event counts only if the flag is still down. */
    method AfterWakeup(event: Event) returns (poll: Poll)
      requires Valid() && s.pump == Woken(event)
      modifies this`script, this`flag, this`s, this`steps
      ensures Valid() && OnCourse()
      ensures s.inputBytes == old(s.inputBytes) && poll in {NothingMore, Cancelled, Received(event)}
      ensures poll == NothingMore ==> Waiting()
      ensures poll == Cancelled ==> s.pump == Stopped(true, true)
      ensures poll.Received? ==> s.pump == Dispatch(s, event).pump && |script| < |old(script)| && !flag
    {
      var now := Await();
      if now.None? {
        return NothingMore;
      }
      LogWoken(event, now.value);
      return if flag then Cancelled else Received(event);
    }

    /** One write: refused by the lifecycle, given up, broken or partly accepted. */
    method WriteCancellable(ghost data: bytes, ghost written: nat, left: bytes) returns (r: Written, count: nat)
      requires Valid() && s.pump == Writing(data, written)
      requires written < |data| && left == data[written..]
      modifies this`script, this`flag, this`sent, this`s, this`steps
      ensures Valid() && OnCourse() && s.inputBytes == old(s.inputBytes)
      ensures r == All ==> count <= |left| && if count == 0 then s.pump == EmergencyClosing
                                              else s.pump == Writing(data, written + count)
      ensures r == Interrupted ==> s.pump == Stopped(true, true)
      ensures r == WriteFailed ==> s.pump == EmergencyClosing
      ensures r == WriteUnfinished ==> Waiting()
    {
      count := 0;
      var now := Await();
      if now.None? {
        return WriteUnfinished, 0;
      }
      LogWriting(data, written, now.value);
      if closed || inputFinished {
        return WriteFailed, 0;
      }
      if flag {
        return Interrupted, 0;
      }
      r, count := Offer(data, written, left);
    }

    method RecordData(taken: bytes)
      modifies this`sent
      ensures sent == old(sent) + if taken == [] then [] else [SentData(taken)]
    {
      if |taken| > 0 {
        sent := sent + [SentData(taken)];
      }
    }

    /** What the transport makes of the bytes. */
    method Offer(ghost data: bytes, ghost written: nat, left: bytes) returns (r: Written, count: nat)
      requires Valid() && s.pump == AwaitingWrite(data, written)
      requires written < |data| && left == data[written..]
      modifies this`script, this`flag, this`sent, this`s, this`steps
      ensures Valid() && OnCourse() && s.inputBytes == old(s.inputBytes)
      ensures r == All ==> count <= |left| && if count == 0 then s.pump == EmergencyClosing
                                              else s.pump == Writing(data, written + count)
      ensures r == Interrupted ==> s.pump == Stopped(true, true)
      ensures r == WriteFailed ==> s.pump == EmergencyClosing
      ensures r == WriteUnfinished ==> Waiting()
    {
      var now := Await();
      if now.None? {
        return WriteUnfinished, 0;
      }
      var answer := Answer(now.value, |left|, flag);
      count := answer.count;
      LogAnswer(data, written, left, now.value);
      RecordData(left[..count]);
      r := if answer.Accepts? then All else if answer.Breaks? then WriteFailed else Interrupted;
    }

    method WriteAllToShell(data: bytes) returns (r: Written)
      requires Valid() && s.pump == Writing(data, 0)
      modifies this`script, this`flag, this`sent, this`s, this`steps
      ensures Valid() && OnCourse() && s.inputBytes == old(s.inputBytes)
      ensures r == All ==> s.pump == Writing(data, |data|)
      ensures r == Interrupted ==> s.pump == Stopped(true, true)
      ensures r == WriteFailed ==> s.pump == EmergencyClosing
      ensures r == WriteUnfinished ==> Waiting()
    {
      var written := 0;
      while written < |data|
        invariant Valid() && written <= |data| && s.pump == Writing(data, written)
        invariant OnCourse() && s.inputBytes == old(s.inputBytes)
      {
        var count;
        r, count := WriteCancellable(data, written, data[written..]);
        if r != All {
          return;
        }
        if count == 0 {
          return WriteFailed;
        }
        written := written + count;
      }
      return All;
    }

    method ResizeCancellable() returns (r: Written)
      requires Valid() && s.pump == Resizing
      modifies this`script, this`flag, this`sent, this`s, this`steps
      ensures Valid() && OnCourse() && s.inputBytes == old(s.inputBytes)
      ensures r == All ==> s.pump == Receiving
      ensures r == Interrupted ==> s.pump == Stopped(true, true)
      ensures r == WriteFailed ==> s.pump == EmergencyClosing
      ensures r == WriteUnfinished ==> Waiting()
    {
      var now := Await();
      if now.None? {
        return WriteUnfinished;
      }
      LogResizing(now.value);
      if flag {
        return Interrupted;
      }
      r := ResizeAnswer();
    }

    method ResizeAnswer() returns (r: Written)
      requires Valid() && s.pump == AwaitingResize
      modifies this`script, this`flag, this`sent, this`s, this`steps
      ensures Valid() && OnCourse() && s.inputBytes == old(s.inputBytes)
      ensures r == All ==> s.pump == Receiving
      ensures r == Interrupted ==> s.pump == Stopped(true, true)
      ensures r == WriteFailed ==> s.pump == EmergencyClosing
      ensures r == WriteUnfinished ==> Waiting()
    {
      var now := Await();
      if now.None? {
        return WriteUnfinished;
      }
      LogResized(now.value);
      if now.value.Fails? {
        return WriteFailed;
      }
      if now.value.Interrupts? && flag {
        return Interrupted;
      }
      sent := sent + [SentResize];
      return All;
    }

    /** Closing twice is closing once; a refused close leaves the lifecycle as it was. */
    method CloseChannel() returns (end: PumpEnd)
      requires Valid() && (s.pump == CancelClosing || s.pump == EmergencyClosing)
      modifies this`script, this`flag, this`inputFinished, this`closed, this`sent, this`s, this`steps
      ensures Valid() && OnCourse() && s.inputBytes == old(s.inputBytes)
      ensures end.Ended? && old(s.pump) == EmergencyClosing ==> s.pump == Stopped(false, end.ok)
      ensures end.Ended? && old(s.pump) == CancelClosing ==>
        s.pump == if end.ok then Stopped(true, true) else EmergencyClosing
      ensures end == Ended(true) ==> closed
      ensures end == Unfinished ==> Waiting()
    {
      var now := Await();
      if now.None? {
        return Unfinished;
      }
      LogClosing(now.value);
      if closed {
        return Ended(true);
      }
      if now.value.Fails? {
        return Ended(false);
      }
      sent := sent + [SentClose];
      inputFinished, closed := true, true;
      return Ended(true);
    }

    method FinishInput() returns (end: PumpEnd)
      requires Valid() && s.pump == Finishing
      modifies this`script, this`flag, this`inputFinished, this`sent, this`s, this`steps
      ensures Valid() && OnCourse() && s.inputBytes == old(s.inputBytes)
      ensures end.Ended? ==> s.pump == if end.ok then Stopped(true, true) else EmergencyClosing
      ensures end == Unfinished ==> Waiting()
    {
      var now := Await();
      if now.None? {
        return Unfinished;
      }
      LogFinishing(now.value);
      if closed || inputFinished {
        return Ended(true);
      }
      if now.value.Fails? {
        return Ended(false);
      }
      sent := sent + [SentEof];
      inputFinished := true;
      return Ended(true);
    }

    /**
     * The loop goes where the script drives the step machine. Whatever
     * happens: the bytes the transport took are a prefix of the data
     * received, the count is that of the completely written events, messages
     * are in order, and the pump ends well only for a reason.
     */
    method PumpInputEvents() returns (end: PumpEnd, inputBytes: nat)
      requires Valid() && s.pump == Receiving && s.inputBytes == 0
      modifies this`script, this`flag, this`inputFinished, this`closed, this`sent, this`s, this`steps
      ensures Valid() && OnCourse() && inputBytes == s.inputBytes == Saturate(|s.whole|)
      ensures s.whole <= Transported(sent) <= Offered(s.received)
      ensures InOrder(sent)
      ensures end.Ended? ==> s.pump == if end.ok then Stopped(true, true) else EmergencyClosing
      ensures end == Unfinished ==> Waiting()
      ensures end == Ended(true) ==> flag || SentEof in sent || SentClose in sent
      ensures HasReasons()
      ensures end == Ended(true) && !flag ==> LastIs(s, Eof) && SessionEvents.LastSent(s, SentEof)
    {
      end, inputBytes := PumpLoop();
      SessionEvents.EveryRunHasReasons(steps);
      EveryRunConservesInput(steps);
      EveryRunIsOrdered(steps);
      if end == Ended(true) {
        PumpStopsForAReason(steps);
      }
    }

    /** The flag is up for a cancel event or by the other thread, and each last message has its event. */
    ghost predicate HasReasons()
      reads this
    {
      && (flag ==> Cancel in s.received || s.runner.Joining? || s.runner.Closing? || s.runner.Done?)
      && (SentEof in sent ==> Eof in s.received)
      && (SentClose in sent && !s.runner.Done? ==> LastIs(s, Cancel) || (s.pump.Stopped? && !s.pump.ok))
    }

    method PumpLoop() returns (end: PumpEnd, inputBytes: nat)
      requires Valid() && s.pump == Receiving && s.inputBytes == 0
      modifies this`script, this`flag, this`inputFinished, this`closed, this`sent, this`s, this`steps
      ensures Valid() && OnCourse() && inputBytes == s.inputBytes
      ensures end.Ended? ==> s.pump == if end.ok then Stopped(true, true) else EmergencyClosing
      ensures end == Unfinished ==> Waiting()
    {
      inputBytes := 0;
      while true
        invariant Valid() && s.pump == Receiving && s.inputBytes == inputBytes
        invariant OnCourse()
        decreases |script|
      {
        var poll := RecvCancellable();
        if poll == Cancelled {
          return Ended(true), inputBytes;
        }
        if poll == NothingMore {
          return Unfinished, inputBytes;
        }
        var stop;
        stop, inputBytes := Serve(poll.event, inputBytes);
        if stop.Some? {
          return stop.value, inputBytes;
        }
      }
    }

    /** What the pump does about one event; `None` when it goes on. */
    method Serve(event: Event, before: nat) returns (end: Option<PumpEnd>, inputBytes: nat)
      requires Valid() && s.pump == Dispatch(s, event).pump && s.inputBytes == before
      modifies this`script, this`flag, this`inputFinished, this`closed, this`sent, this`s, this`steps
      ensures Valid() && OnCourse() && inputBytes == s.inputBytes
      ensures end.None? ==> s.pump == Receiving
      ensures end.Some? && end.value.Ended? ==>
        s.pump == if end.value.ok then Stopped(true, true) else EmergencyClosing
      ensures end == Some(Unfinished) ==> Waiting()
    {
      inputBytes := before;
      match event {
        case Data(data) =>
          var r := WriteAllToShell(data);
          if r != All {
            return Some(EndOf(r)), inputBytes;
          }
          LogPassing();
          return None, Saturate(inputBytes + |data|);
        case Resize =>
          var r := ResizeCancellable();
          return if r == All then None else Some(EndOf(r)), inputBytes;
        case Cancel =>
          flag := true;
          LogPassing();
          var closing := CloseChannel();
          return Some(closing), inputBytes;
        case Eof =>
          var finishing := FinishInput();
          return Some(finishing), inputBytes;
        case Failure =>
          return Some(Ended(false)), inputBytes;
      }
    }

    static function EndOf(r: Written): PumpEnd {
      if r == Interrupted then Ended(true) else if r == WriteFailed then Ended(false) else Unfinished
    }

    /**
     * The thread: the pump, and one attempt to close after an error. It ends
     * in the very state, and has sent the very messages, that the script
     * makes of the step machine.
     */
    method RunPump() returns (end: PumpEnd, inputBytes: nat)
      requires Valid() && s.pump == Receiving && s.inputBytes == 0
      modifies this`script, this`flag, this`inputFinished, this`closed, this`sent, this`s, this`steps
      ensures Valid() && inputBytes == s.inputBytes
      ensures s == old(Drive(s, script)) && sent == old(Drive(s, script).sent)
      ensures if end.Ended? then s.pump.Stopped? && s.pump.ok == end.ok else Waiting()
      ensures s.whole <= Transported(sent) <= Offered(s.received) && InOrder(sent)
      ensures HasReasons()
      ensures end == Ended(true) && !flag ==> LastIs(s, Eof) && SessionEvents.LastSent(s, SentEof)
    {
      end, inputBytes := PumpInputEvents();
      if end == Ended(false) {
        var emergency := CloseChannel();
        if emergency == Unfinished {
          end := Unfinished;
        }
        EveryRunConservesInput(steps);
        EveryRunIsOrdered(steps);
        SessionEvents.EveryRunHasReasons(steps);
      }
    }
  }

  // ----- The output loop -----

  datatype ChunkRead = Got(chunk: bytes) | EndOfInput | ReadFailed

  class OutputPump {
    var script: seq<Cue>
    var printed: bytes
    ghost var s: State
    ghost var steps: seq<Step>

    constructor (script: seq<Cue>)
      ensures Valid() && this.script == script && s == START
    {
      this.script, printed := script, [];
      s, steps := START, [];
    }

    ghost predicate Valid()
      reads this
    {
      s == Run(START, steps) && s.printed == printed
    }

    ghost method Log(step: Step)
      requires s == Run(START, steps)
      modifies this`s, this`steps
      ensures s == Next(old(s), step) && s == Run(START, steps)
    {
      ghost var more := RunThen(START, steps, step);
      s, steps := Next(s, step), more;
    }

    /** `None` ends the script. */
    method Await() returns (cue: Option<Cue>)
      modifies this`script
      ensures if old(script) == [] then cue.None? && script == []
              else cue == Some(old(script)[0]) && script == old(script)[1..]
    {
      if script == [] {
        return None;
      }
      cue := Some(script[0]);
      script := script[1..];
    }

    /** Nothing has been read and printed that the reader has not handed out. */
    ghost predicate Copies(reader: ChannelReader.Reader)
      reads this, reader
    {
      reader.Valid() && reader.Honest() && s.produced == reader.delivered
    }

    /** What is still to be read: its pieces, where it stops and what lies behind. */
    ghost predicate Leads(reader: ChannelReader.Reader, input: Input)
      reads reader
    {
      Feeds(reader.pending, reader.wakeups, input)
    }

    /**
     * What arrives and what the output answers decide the whole copy: the
     * result, what is printed and counted, and the answers taken are those of
     * `Copying`. So it ends well if and only if the input stops at a close, an
     * end of stream or an empty payload and the output accepts every chunk;
     * then all of the payload before that is printed and counted, and the
     * input has really ended unless the payload was empty. It fails at a
     * cancellation or a deadline, or at the first refusal of the output.
     */
    method CopySessionToOutput(reader: ChannelReader.Reader) returns (end: CopyEnd, outputBytes: nat)
      requires Valid() && s.runner == Reading && s.outputBytes == 0
      requires Copies(reader) && reader.consumed == [] && !reader.finished
      modifies this, reader
      ensures Valid() && Copies(reader) && outputBytes == s.outputBytes
      ensures CopyResult(end, printed, outputBytes, script)
           == Copying(InputOf(old(reader.wakeups)).pieces, old(script),
                      QuietEnd(InputOf(old(reader.wakeups)).stop), [], 0)
      ensures end == CopyDone <==>
        QuietEnd(InputOf(old(reader.wakeups)).stop) && AcceptsAll(old(script), |InputOf(old(reader.wakeups)).pieces|)
      ensures end == CopyUnfinished <==>
        |old(script)| < 2 * |InputOf(old(reader.wakeups)).pieces| && Accepted(old(script))
      ensures printed <= ChannelReader.PayloadBefore(old(reader.wakeups))
      ensures end == CopyDone ==> s.runner == Raising(true)
      ensures end == CopyDone ==> Accepted(Taken(old(script), script))
      ensures end == CopyDone ==> printed == ChannelReader.PayloadBefore(old(reader.wakeups))
      ensures end == CopyDone ==> outputBytes == Saturate(|printed|)
      ensures end == CopyDone ==> reader.wakeups == ChannelReader.Beyond(old(reader.wakeups))
      ensures end == CopyDone ==>
        (reader.finished <==> ChannelReader.Ends(ChannelReader.Stopper(old(reader.wakeups))))
      ensures end == CopyFailed ==> s.runner == Raising(false)
      ensures end == CopyFailed ==>
        || Refused(Taken(old(script), script))
        || (&& GivesUp(ChannelReader.Stopper(old(reader.wakeups)))
            && printed == ChannelReader.PayloadBefore(old(reader.wakeups)))
      ensures end == CopyUnfinished ==> script == [] && (s.runner.Printing? || s.runner.Flushing?)
    {
      ghost var input, quiet, start := InputOf(reader.wakeups), QuietEnd(InputOf(reader.wakeups).stop), script;
      ReadingAll(steps);
      NothingYet(reader);
      end, outputBytes := CopyLoop(reader, input);
      CopyingEnds(input.pieces, start, quiet, [], 0);
      CopyingPrints(input.pieces, start, quiet, [], 0);
      CopyingTakes(input.pieces, start, quiet, [], 0);
      ChannelReader.PiecesBeforeJoin(old(reader.wakeups), READ_BUFFER);
      assert [] + ChannelReader.Joined(input.pieces) == ChannelReader.Joined(input.pieces);
      NotPlain(old(reader.wakeups));
      CopiedAll(steps);
    }

    /** A reader that has taken nothing has everything to come. */
    lemma NothingYet(reader: ChannelReader.Reader)
      requires reader.Valid() && reader.consumed == []
      ensures reader.delivered == reader.pending == []
      ensures Leads(reader, InputOf(reader.wakeups))
    {
      var pieces := ChannelReader.PiecesBefore(reader.wakeups, READ_BUFFER);
      assert [] + pieces == pieces;
    }

    method CopyLoop(reader: ChannelReader.Reader, ghost input: Input) returns (end: CopyEnd, outputBytes: nat)
      requires Valid() && s.runner == Reading && s.outputBytes == 0
      requires Copies(reader) && !reader.finished && Leads(reader, input)
      modifies this, reader
      ensures Valid() && Copies(reader) && outputBytes == s.outputBytes
      ensures CopyResult(end, printed, outputBytes, script)
           == Copying(input.pieces, old(script), QuietEnd(input.stop), old(printed), 0)
      ensures end == CopyDone ==> s.runner == Raising(true) && reader.wakeups == input.beyond
      ensures end == CopyDone ==> (reader.finished <==> ChannelReader.Ends(input.stop))
      ensures end == CopyFailed ==> s.runner == Raising(false)
      ensures end == CopyUnfinished ==> s.runner.Printing? || s.runner.Flushing?
    {
      outputBytes := 0;
      ghost var rest := input;
      ghost var result := Copying(input.pieces, script, QuietEnd(input.stop), printed, 0);
      var buffer := new byte[READ_BUFFER];
      while true
        invariant Valid() && s.runner == Reading && s.outputBytes == outputBytes
        invariant Copies(reader) && !reader.finished && Leads(reader, rest) && fresh(buffer)
        invariant rest.stop == input.stop && rest.beyond == input.beyond
        invariant Copying(rest.pieces, script, QuietEnd(rest.stop), printed, outputBytes) == result
        decreases |rest.pieces|
      {
        var stop, chunk := CopyChunk(reader, buffer, rest);
        if stop.Some? {
          return stop.value, outputBytes;
        }
        rest := Advance(rest);
        outputBytes := Saturate(outputBytes + |chunk|);
      }
    }

    /** Reads a chunk and prints it; no end when the copy goes on. */
    method CopyChunk(reader: ChannelReader.Reader, buffer: array<byte>, ghost input: Input)
      returns (end: Option<CopyEnd>, chunk: bytes)
      requires Valid() && s.runner == Reading && Copies(reader)
      requires !reader.finished && Leads(reader, input)
      requires buffer.Length == READ_BUFFER
      modifies this, reader, buffer
      ensures Valid() && Copies(reader)
      ensures s.outputBytes == if end.None? then Saturate(old(s.outputBytes) + |chunk|) else old(s.outputBytes)
      ensures end.None? ==>
        && s.runner == Reading && !reader.finished
        && IsNext(chunk, input)
        && Leads(reader, Advance(input))
      ensures
        var p := CopyOne(input.pieces, old(script), QuietEnd(input.stop));
        end == p.end && printed == old(printed) + p.taken && script == p.left
      ensures end == Some(CopyDone) ==>
        && s.runner == Raising(true) && reader.wakeups == input.beyond
        && (reader.finished <==> ChannelReader.Ends(input.stop))
      ensures end == Some(CopyFailed) ==> s.runner == Raising(false)
      ensures end == Some(CopyUnfinished) ==> s.runner.Printing? || s.runner.Flushing?
    {
      var read := ReadChunk(reader, buffer, input);
      if !read.Got? {
        return Some(if read == EndOfInput then CopyDone else CopyFailed), [];
      }
      chunk := read.chunk;
      end := PrintChunk(chunk);
    }

    /** One read of the channel. */
    method ReadChunk(reader: ChannelReader.Reader, buffer: array<byte>, ghost input: Input) returns (read: ChunkRead)
      requires Valid() && s.runner == Reading && Copies(reader)
      requires !reader.finished && Leads(reader, input)
      requires buffer.Length == READ_BUFFER
      modifies this`s, this`steps, reader, buffer
      ensures Valid() && Copies(reader) && s.outputBytes == old(s.outputBytes)
      ensures read.Got? ==>
        && s.runner == Printing(read.chunk) && !reader.finished
        && IsNext(read.chunk, input)
        && Leads(reader, Advance(input))
      ensures read == EndOfInput ==>
        && s.runner == Raising(true) && input.pieces == [] && QuietEnd(input.stop)
        && reader.wakeups == input.beyond && (reader.finished <==> ChannelReader.Ends(input.stop))
      ensures read == ReadFailed ==> s.runner == Raising(false) && input.pieces == [] && !QuietEnd(input.stop)
    {
      var outcome := ReadOnce(reader, buffer, input);
      if !outcome.Read? {
        LogLast(false);
        return ReadFailed;
      }
      if outcome.count == 0 {
        LogLast(true);
        return EndOfInput;
      }
      var chunk := buffer[..outcome.count];
      LogRead(chunk);
      return Got(chunk);
    }

    /** What a read has to do with the whole input. */
    method ReadOnce(reader: ChannelReader.Reader, buffer: array<byte>, ghost input: Input)
      returns (outcome: ChannelReader.ReadOutcome)
      requires reader.Valid() && reader.Honest() && !reader.finished && Leads(reader, input)
      requires buffer.Length == READ_BUFFER
      modifies reader, buffer
      ensures reader.Valid() && reader.Honest()
      ensures outcome.Read? ==> outcome.count <= buffer.Length
      ensures reader.delivered == old(reader.delivered) + if outcome.Read? then buffer[..outcome.count] else []
      ensures outcome.Read? && outcome.count > 0 ==>
        && !reader.finished && IsNext(buffer[..outcome.count], input)
        && Leads(reader, Advance(input))
      ensures outcome == ChannelReader.Read(0) ==>
        && input.pieces == [] && QuietEnd(input.stop) && reader.wakeups == input.beyond
        && (reader.finished <==> ChannelReader.Ends(input.stop))
      ensures !outcome.Read? ==> input.pieces == [] && !QuietEnd(input.stop)
    {
      ghost var delivered, pending := reader.delivered, reader.pending;
      ghost var consumed, wakeups := reader.consumed, reader.wakeups;
      outcome := reader.ReadCancellable(buffer);
      if outcome.Read? && outcome.count > 0 {
        ReadsOn(delivered, pending, consumed, wakeups,
                buffer[..outcome.count], reader.pending, reader.consumed, reader.wakeups, input);
      } else {
        LastRead(wakeups, input);
      }
    }

    ghost method LogLast(ok: bool)
      requires s == Run(START, steps) && s.runner == Reading
      modifies this`s, this`steps
      ensures s == Run(START, steps) && s == old(s).(runner := Raising(ok))
    {
      Log(RunnerMoves(if ok then Ends else Fails));
    }

    ghost method LogRead(chunk: bytes)
      requires s == Run(START, steps) && s.runner == Reading && 0 < |chunk| <= READ_BUFFER
      modifies this`s, this`steps
      ensures s == Run(START, steps)
      ensures s == old(s).(produced := old(s.produced) + chunk, runner := Printing(chunk))
    {
      Log(RunnerMoves(Chunk(chunk)));
    }

    /** Writes all of a chunk and flushes it. */
    method PrintChunk(chunk: bytes) returns (end: Option<CopyEnd>)
      requires Valid() && s.runner == Printing(chunk)
      modifies this
      ensures Valid() && s.produced == old(s.produced)
      ensures end == Print(chunk, old(script)).end && script == Print(chunk, old(script)).left
      ensures printed == old(printed) + Print(chunk, old(script)).taken
      ensures end.None? ==> s.runner == Reading
      ensures s.outputBytes == if end.None? then Saturate(old(s.outputBytes) + |chunk|) else old(s.outputBytes)
      ensures end == Some(CopyFailed) ==> s.runner == Raising(false)
      ensures end == Some(CopyUnfinished) ==> s.runner.Printing? || s.runner.Flushing?
    {
      end := WriteChunk(chunk);
      if end.None? {
        end := FlushOutput(chunk);
      }
    }

    method WriteChunk(chunk: bytes) returns (end: Option<CopyEnd>)
      requires Valid() && s.runner == Printing(chunk)
      modifies this
      ensures Valid() && s.produced == old(s.produced) && s.outputBytes == old(s.outputBytes)
      ensures if old(script) == [] then end == Some(CopyUnfinished) && script == [] && printed == old(printed)
              else
                && script == old(script)[1..]
                && if old(script)[0].Breaks? then
                     && end == Some(CopyFailed)
                     && printed == old(printed) + chunk[..Min(old(script)[0].count, |chunk|)]
                   else end == None && printed == old(printed) + chunk
      ensures end.None? ==> s.runner == Flushing(chunk)
      ensures end == Some(CopyFailed) ==> s.runner == Raising(false)
      ensures end == Some(CopyUnfinished) ==> s.runner == Printing(chunk)
    {
      var write := Await();
      if write.None? {
        return Some(CopyUnfinished);
      }
      if write.value.Breaks? {
        var part := Min(write.value.count, |chunk|);
        Log(RunnerMoves(Breaks(part)));
        printed := printed + chunk[..part];
        return Some(CopyFailed);
      }
      Log(RunnerMoves(Succeeds));
      printed := printed + chunk;
      return None;
    }

    method FlushOutput(ghost chunk: bytes) returns (end: Option<CopyEnd>)
      requires Valid() && s.runner == Flushing(chunk)
      modifies this
      ensures Valid() && s.produced == old(s.produced) && printed == old(printed)
      ensures if old(script) == [] then end == Some(CopyUnfinished) && script == []
              else script == old(script)[1..] && end == if old(script)[0].Fails? then Some(CopyFailed) else None
      ensures end.None? ==> s.runner == Reading
      ensures s.outputBytes == if end.None? then Saturate(old(s.outputBytes) + |chunk|) else old(s.outputBytes)
      ensures end == Some(CopyFailed) ==> s.runner == Raising(false)
      ensures end == Some(CopyUnfinished) ==> s.runner == Flushing(chunk)
    {
      var flush := Await();
      if flush.None? {
        return Some(CopyUnfinished);
      }
      if flush.value.Fails? {
        Log(RunnerMoves(Fails));
        return Some(CopyFailed);
      }
      Log(RunnerMoves(Succeeds));
      return None;
    }
  }
}
