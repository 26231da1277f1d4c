/**
 * Scripts for the loops of a session: what the user, the transport and the
 * other thread do between two steps of the input pump, what such a script
 * makes of the step machine, and the answers that the output gives. The
 * loops themselves are in `SessionLoops`; here is the specification they are
 * proved against, and what it means event by event.
 */
module SessionScript {
  import opened Common
  import opened Session
  import ChannelReader

  /** Before a step: the other thread may have raised the flag, and this is the answer to come. */
  datatype Happening = Happening(raised: bool, cue: Cue)

  // ----- What a script makes of the step machine -----

  /** The other thread has raised the flag: its output has ended. */
  function Raise(s: State, raised: bool): State {
    if raised && !s.flag then s.(flag := true, runner := Joining(true)) else s
  }

  /** Points that the pump passes without waiting for anything, and points that it never leaves. */
  predicate Passing(pump: Pump) {
    pump.Cancelling? || (pump.Writing? && pump.written >= |pump.data|)
  }

  predicate Halted(pump: Pump) {
    pump.Stopped? || pump.Lost?
  }

  /** How the transport takes the bytes that are left. */
  function Answer(cue: Cue, left: nat, flag: bool): (r: Cue)
    ensures (r.Accepts? || r.Breaks? || (r.Interrupts? && flag)) && r.count <= left
  {
    match cue
    case Accepts(n) => Accepts(Min(n, left))
    case Breaks(n) => Breaks(Min(n, left))
    case Interrupts(n) => if flag then Interrupts(Min(n, left)) else Accepts(left)
    case _ => Accepts(left)
  }

  /** What an answer of the script means at a point of the pump. */
  function Meant(s: State, cue: Cue): Cue {
    match s.pump
    case Polling => if cue.Take? then cue else Idle
    case AwaitingWrite(data, written) => if written > |data| then Go else Answer(cue, |data| - written, s.flag)
    case AwaitingResize => if cue.Fails? || (cue.Interrupts? && s.flag) then cue else Succeeds
    case CancelClosing => MeantByClosing(s.life.closed, cue)
    case EmergencyClosing => MeantByClosing(s.life.closed, cue)
    case Finishing => MeantByClosing(s.life.closed || s.life.inputFinished, cue)
    case _ => Go
  }

  function MeantByClosing(already: bool, cue: Cue): Cue {
    if already then Go else if cue.Fails? then Fails else Succeeds
  }

  function Moved(s: State, cue: Cue): State {
    Next(s, PumpMoves(Meant(s, cue)))
  }

  /** The step machine under a script: where the pump stands when the script has ended or the pump has. */
  function Drive(s: State, script: seq<Happening>): State
    decreases |script|, Passing(s.pump)
  {
    if Halted(s.pump) then s
    else if Passing(s.pump) then Drive(Passed(s), script)
    else if script == [] then s
    else Drive(Moved(Raise(s, script[0].raised), script[0].cue), script[1..])
  }

  function Passed(s: State): (r: State)
    requires Passing(s.pump)
    ensures r == Next(s, PumpMoves(Go)) && !Passing(r.pump)
  {
    match s.pump
    case Writing(data, _) =>
      s.(whole := s.whole + data, inputBytes := Saturate(s.inputBytes + |data|), pump := Receiving)
    case Cancelling => s.(flag := true, pump := CancelClosing)
  }

  /** Where a script drives the machine, a run of pump and runner gets too. */
  lemma {:induction false} DriveIsARun(s: State, script: seq<Happening>) returns (steps: seq<Step>)
    requires s.runner == Reading || s.flag
    ensures Run(s, steps) == Drive(s, script)
    decreases |script|, Passing(s.pump)
  {
    steps := [];
    if Halted(s.pump) {
    } else if Passing(s.pump) {
      var rest := DriveIsARun(Passed(s), script);
      steps := [PumpMoves(Go)] + rest;
    } else if script != [] {
      var raising := RaiseIsARun(s, script[0].raised);
      var r, cue := Raise(s, script[0].raised), script[0].cue;
      PumpLeavesRunner(r, Meant(r, cue));
      var rest := DriveIsARun(Moved(r, cue), script[1..]);
      steps := raising + ([PumpMoves(Meant(r, cue))] + rest);
      RunAppend(s, raising, [PumpMoves(Meant(r, cue))] + rest);
    }
  }

  lemma RaiseIsARun(s: State, raised: bool) returns (steps: seq<Step>)
    requires s.runner == Reading || s.flag
    ensures Run(s, steps) == Raise(s, raised)
  {
    steps := [];
    if raised && !s.flag {
      steps := [RunnerMoves(Ends)] + [RunnerMoves(Go)];
      RunAppend(s, [RunnerMoves(Ends)], [RunnerMoves(Go)]);
      RunSingle(s, RunnerMoves(Ends));
      RunSingle(Next(s, RunnerMoves(Ends)), RunnerMoves(Go));
    }
  }

  lemma PumpLeavesRunner(s: State, cue: Cue)
    ensures Next(s, PumpMoves(cue)).runner == s.runner && (s.flag ==> Next(s, PumpMoves(cue)).flag)
  {
  }

  // ----- What each event does -----

  /** The other thread does nothing before this answer. */
  function Calm(cue: Cue): Happening {
    Happening(false, cue)
  }

  /** The pump waits for an event, nobody has cancelled, and the writer is open. */
  predicate AtRest(s: State) {
    s.pump == Receiving && !s.flag && s.life == Lifecycle(false, false)
  }

  lemma DriveOne(s: State, happening: Happening, rest: seq<Happening>)
    requires !Halted(s.pump) && !Passing(s.pump)
    ensures Drive(s, [happening] + rest) == Drive(Moved(Raise(s, happening.raised), happening.cue), rest)
  {
    assert ([happening] + rest)[0] == happening && ([happening] + rest)[1..] == rest;
  }

  /** Where the pump goes for an event. */
  function PlaceOf(event: Event): Pump {
    match event
    case Data(data) => Writing(data, 0)
    case Resize => Resizing
    case Cancel => Cancelling
    case Eof => Finishing
    case Failure => EmergencyClosing
  }

  /** Three answers take the pump from its wait to the event: the wait, the event, and the look after waking up. */
  lemma EventIsTaken(s: State, event: Event, rest: seq<Happening>)
    requires AtRest(s)
    ensures Drive(s, [Calm(Go)] + ([Calm(Take(event))] + ([Calm(Go)] + rest)))
         == Drive(s.(received := s.received + [event], pump := PlaceOf(event)), rest)
  {
    var s1 := s.(pump := Polling);
    var s2 := s1.(received := s.received + [event], pump := Woken(event));
    DriveOne(s, Calm(Go), [Calm(Take(event))] + ([Calm(Go)] + rest));
    assert Moved(s, Go) == s1;
    DriveOne(s1, Calm(Take(event)), [Calm(Go)] + rest);
    assert Moved(s1, Take(event)) == s2;
    DriveOne(s2, Calm(Go), rest);
    assert Moved(s2, Go) == s2.(pump := PlaceOf(event));
  }

  /** A write of the transport takes the next bytes, in order. */
  lemma WriteTakes(s: State, data: bytes, written: nat, n: nat, rest: seq<Happening>)
    requires s.pump == Writing(data, written) && !s.flag && s.life == Lifecycle(false, false)
    requires 0 < n && written + n <= |data|
    ensures Drive(s, [Calm(Go)] + ([Calm(Accepts(n))] + rest))
         == Drive(s.(accepted := s.accepted + data[written..written + n],
                     sent := s.sent + [SentData(data[written..written + n])],
                     pump := Writing(data, written + n)), rest)
  {
    var s1 := s.(pump := AwaitingWrite(data, written));
    WriteStarts(s, data, written, [Calm(Accepts(n))] + rest);
    WriteAccepted(s1, data, written, n, rest);
  }

  lemma WriteStarts(s: State, data: bytes, written: nat, rest: seq<Happening>)
    requires s.pump == Writing(data, written) && !s.flag && s.life == Lifecycle(false, false) && written < |data|
    ensures Drive(s, [Calm(Go)] + rest) == Drive(s.(pump := AwaitingWrite(data, written)), rest)
  {
    DriveOne(s, Calm(Go), rest);
  }

  lemma WriteAccepted(s: State, data: bytes, written: nat, n: nat, rest: seq<Happening>)
    requires s.pump == AwaitingWrite(data, written) && 0 < n && written + n <= |data|
    ensures
      var taken := data[written..written + n];
      Drive(s, [Calm(Accepts(n))] + rest)
      == Drive(s.(accepted := s.accepted + taken, sent := s.sent + [SentData(taken)],
                  pump := Writing(data, written + n)), rest)
  {
    assert data[written..][..n] == data[written..written + n];
    assert Moved(s, Accepts(n)) == Accept(s, data[written..written + n]).(pump := Writing(data, written + n));
    DriveOne(s, Calm(Accepts(n)), rest);
  }

  /** A written event is counted, whatever the flag says, and the pump waits for the next one. */
  lemma WriteEnds(s: State, data: bytes, rest: seq<Happening>)
    requires s.pump == Writing(data, |data|)
    ensures Drive(s, rest)
         == Drive(s.(whole := s.whole + data, inputBytes := Saturate(s.inputBytes + |data|), pump := Receiving), rest)
  {
  }

  /** A resize is forwarded as one message. */
  lemma ResizeIsForwarded(s: State, rest: seq<Happening>)
    requires s.pump == Resizing && !s.flag
    ensures Drive(s, [Calm(Go)] + ([Calm(Succeeds)] + rest))
         == Drive(s.(sent := s.sent + [SentResize], pump := Receiving), rest)
  {
    ResizeStarts(s, [Calm(Succeeds)] + rest);
    ResizeSucceeds(s.(pump := AwaitingResize), rest);
  }

  lemma ResizeStarts(s: State, rest: seq<Happening>)
    requires s.pump == Resizing && !s.flag
    ensures Drive(s, [Calm(Go)] + rest) == Drive(s.(pump := AwaitingResize), rest)
  {
    DriveOne(s, Calm(Go), rest);
  }

  lemma ResizeSucceeds(s: State, rest: seq<Happening>)
    requires s.pump == AwaitingResize
    ensures Drive(s, [Calm(Succeeds)] + rest) == Drive(s.(sent := s.sent + [SentResize], pump := Receiving), rest)
  {
    DriveOne(s, Calm(Succeeds), rest);
  }

  /** The end of the input sends end-of-file, leaves the flag down and ends the pump well. */
  lemma EofIsSent(s: State, rest: seq<Happening>)
    requires s.pump == Finishing && s.life == Lifecycle(false, false)
    ensures Drive(s, [Calm(Succeeds)] + rest)
         == s.(sent := s.sent + [SentEof], life := Lifecycle(true, false), pump := Stopped(true, true))
  {
    DriveOne(s, Calm(Succeeds), rest);
  }

  /** A cancel event raises the flag, closes the channel and ends the pump well. */
  lemma CancelCloses(s: State, rest: seq<Happening>)
    requires s.pump == Cancelling && s.life == Lifecycle(false, false)
    ensures Drive(s, [Calm(Succeeds)] + rest)
         == s.(flag := true, sent := s.sent + [SentClose], life := Lifecycle(true, true), pump := Stopped(true, true))
  {
    CancelRaises(s, [Calm(Succeeds)] + rest);
    CloseSucceeds(s.(flag := true, pump := CancelClosing), rest);
  }

  lemma CancelRaises(s: State, script: seq<Happening>)
    requires s.pump == Cancelling
    ensures Drive(s, script) == Drive(s.(flag := true, pump := CancelClosing), script)
  {
  }

  lemma CloseSucceeds(s: State, rest: seq<Happening>)
    requires s.pump == CancelClosing && s.life == Lifecycle(false, false)
    ensures Drive(s, [Calm(Succeeds)] + rest)
         == s.(sent := s.sent + [SentClose], life := Lifecycle(true, true), pump := Stopped(true, true))
  {
    DriveOne(s, Calm(Succeeds), rest);
  }

  /** After an error the channel is closed once, and the pump ends with the error. */
  lemma ErrorCloses(s: State, closes: bool, rest: seq<Happening>)
    requires s.pump == EmergencyClosing && !s.life.closed
    ensures Drive(s, [Calm(if closes then Succeeds else Fails)] + rest)
         == if closes then s.(sent := s.sent + [SentClose], life := Lifecycle(true, true), pump := Stopped(false, true))
            else s.(pump := Stopped(false, false))
  {
    DriveOne(s, Calm(if closes then Succeeds else Fails), rest);
  }

  /** What the transport refuses is an error; nothing is marked as sent. */
  lemma RefusalsAreErrors(s: State, rest: seq<Happening>)
    requires !s.life.closed && !s.life.inputFinished
    requires s.pump.Finishing? || s.pump.CancelClosing? || s.pump.AwaitingResize?
    ensures Drive(s, [Calm(Fails)] + rest) == Drive(s.(pump := EmergencyClosing), rest)
  {
    DriveOne(s, Calm(Fails), rest);
  }

  /** A write that breaks is an error; what was taken before is kept. */
  lemma BrokenWritesAreErrors(s: State, n: nat, rest: seq<Happening>)
    requires s.pump.AwaitingWrite? && s.pump.written + n <= |s.pump.data|
    ensures
      var taken := s.pump.data[s.pump.written..s.pump.written + n];
      Drive(s, [Calm(Breaks(n))] + rest)
      == Drive(s.(accepted := s.accepted + taken, sent := if n == 0 then s.sent else s.sent + [SentData(taken)],
                  pump := EmergencyClosing), rest)
  {
    var taken := s.pump.data[s.pump.written..s.pump.written + n];
    assert s.pump.data[s.pump.written..][..n] == taken;
    assert Moved(s, Breaks(n)) == Accept(s, taken).(pump := EmergencyClosing);
    DriveOne(s, Calm(Breaks(n)), rest);
  }

  /** So is a write that takes nothing. */
  lemma EmptyWritesAreErrors(s: State, rest: seq<Happening>)
    requires s.pump.AwaitingWrite? && s.pump.written <= |s.pump.data|
    ensures Drive(s, [Calm(Accepts(0))] + rest) == Drive(s.(pump := EmergencyClosing), rest)
  {
    assert Moved(s, Accepts(0)) == s.(pump := EmergencyClosing);
    DriveOne(s, Calm(Accepts(0)), rest);
  }

  /** With the flag up the pump stops well at its next look, and an event that has just come is not served. */
  lemma FlagStops(s: State, cue: Cue, rest: seq<Happening>)
    requires s.pump.Receiving? || s.pump.Woken? || s.pump.Resizing?
             || (s.pump.Writing? && s.pump.written < |s.pump.data|)
    requires s.life == Lifecycle(false, false)
    ensures s.flag ==> Drive(s, [Calm(cue)] + rest) == s.(pump := Stopped(true, true))
    ensures !s.flag ==>
      Drive(s, [Happening(true, cue)] + rest) == s.(flag := true, runner := Joining(true), pump := Stopped(true, true))
  {
    DriveOne(s, Calm(cue), rest);
    DriveOne(s, Happening(true, cue), rest);
  }

  /** A write that is given up under the flag ends the pump well; what was taken is kept. */
  lemma WriteIsGivenUp(s: State, n: nat, rest: seq<Happening>)
    requires s.flag && s.pump.AwaitingWrite? && s.pump.written + n <= |s.pump.data|
    ensures
      var taken := s.pump.data[s.pump.written..s.pump.written + n];
      Drive(s, [Calm(Interrupts(n))] + rest)
      == s.(accepted := s.accepted + taken, sent := if n == 0 then s.sent else s.sent + [SentData(taken)],
            pump := Stopped(true, true))
  {
    var taken := s.pump.data[s.pump.written..s.pump.written + n];
    assert s.pump.data[s.pump.written..][..n] == taken;
    assert Moved(s, Interrupts(n)) == Accept(s, taken).(pump := Stopped(true, true));
    DriveOne(s, Calm(Interrupts(n)), rest);
  }

  /** So does a resize, which is not sent. */
  lemma ResizeIsGivenUp(s: State, n: nat, rest: seq<Happening>)
    requires s.flag && s.pump.AwaitingResize?
    ensures Drive(s, [Calm(Interrupts(n))] + rest) == s.(pump := Stopped(true, true))
  {
    DriveOne(s, Calm(Interrupts(n)), rest);
  }

  // ----- What a copy has to read -----

  /** A wait that ends in an error. */
  predicate GivesUp(stop: Option<ChannelReader.Wakeup>) {
    stop == Some(ChannelReader.CancellationSeen) || stop == Some(ChannelReader.InactivityDeadline)
  }

  /** The input has ended, or an empty payload looks as if it had. */
  predicate QuietEnd(stop: Option<ChannelReader.Wakeup>) {
    ChannelReader.Ends(stop) || (stop.Some? && stop.value.Arrived? && ChannelReader.IsEmptyData(stop.value.message))
  }

  /** All that is to be read: the pieces, the wakeup that stops the reads, and the wakeups behind it. */
  datatype Input = Input(pieces: seq<bytes>, stop: Option<ChannelReader.Wakeup>, beyond: seq<ChannelReader.Wakeup>)

  function InputOf(wakeups: seq<ChannelReader.Wakeup>): Input {
    Input(ChannelReader.PiecesBefore(wakeups, READ_BUFFER), ChannelReader.Stopper(wakeups),
          ChannelReader.Beyond(wakeups))
  }

  lemma {:induction false} NotPlain(wakeups: seq<ChannelReader.Wakeup>)
    ensures QuietEnd(ChannelReader.Stopper(wakeups)) <==> !GivesUp(ChannelReader.Stopper(wakeups))
    decreases |wakeups|
  {
    if wakeups != [] && ChannelReader.Plain(wakeups[0]) {
      NotPlain(wakeups[1..]);
    }
  }

  /** What is pending and what is to come make up the input. */
  predicate Feeds(pending: bytes, wakeups: seq<ChannelReader.Wakeup>, input: Input) {
    && ChannelReader.Stopper(wakeups) == input.stop
    && ChannelReader.Beyond(wakeups) == input.beyond
    && ChannelReader.Pieces(pending, READ_BUFFER) + ChannelReader.PiecesBefore(wakeups, READ_BUFFER) == input.pieces
  }

  predicate IsNext(piece: bytes, input: Input) {
    input.pieces != [] && input.pieces[0] == piece
  }

  function Advance(input: Input): Input
    requires input.pieces != []
  {
    input.(pieces := input.pieces[1..])
  }

  /** A read that finds something pending hands out the next piece. */
  lemma PendingRead(pending: bytes, wakeups: seq<ChannelReader.Wakeup>, piece: bytes, left: bytes, input: Input)
    requires Feeds(pending, wakeups, input)
    requires pending == piece + left && piece != [] && |piece| == Min(READ_BUFFER, |pending|)
    ensures IsNext(piece, input) && Feeds(left, wakeups, Advance(input))
  {
    ChannelReader.NextPiece(pending, piece, left, READ_BUFFER);
    var more, rest := ChannelReader.Pieces(left, READ_BUFFER), ChannelReader.PiecesBefore(wakeups, READ_BUFFER);
    assert ([piece] + more) + rest == [piece] + (more + rest);
  }

  /** So does one that waits, when it is data that ends the wait. */
  lemma WaitRead(
      consumed: seq<ChannelReader.Message>, wakeups: seq<ChannelReader.Wakeup>, room: nat, piece: bytes, left: bytes,
      input: Input)
    requires Feeds([], wakeups, input) && room == READ_BUFFER
    requires ChannelReader.OutcomeOf(ChannelReader.Decider(wakeups), room) == ChannelReader.Read(|piece|)
    requires piece != []
    requires ChannelReader.Payload(consumed + ChannelReader.Taken(wakeups))
          == ChannelReader.Payload(consumed) + (piece + left)
    ensures IsNext(piece, input) && Feeds(left, ChannelReader.Left(wakeups), Advance(input))
    ensures !ChannelReader.Ends(ChannelReader.Decider(wakeups))
  {
    ChannelReader.CopyStep(consumed, wakeups);
    ChannelReader.PiecesStep(wakeups, READ_BUFFER);
    ChannelReader.DeciderIsNotSkipped(wakeups);
    var data := ChannelReader.PayloadOf(ChannelReader.Decider(wakeups).value.message);
    SamePayload(ChannelReader.Payload(consumed), data, piece, left);
    var pieces := ChannelReader.PiecesBefore(wakeups, READ_BUFFER);
    assert [] + pieces == pieces;
    PendingRead(data, ChannelReader.Left(wakeups), piece, left, input);
  }

  /** Either way a read that hands out bytes hands out the next piece. */
  lemma ReadsOn(
      delivered: bytes, pending: bytes, consumed: seq<ChannelReader.Message>, wakeups: seq<ChannelReader.Wakeup>,
      piece: bytes, left: bytes, consumed': seq<ChannelReader.Message>, wakeups': seq<ChannelReader.Wakeup>,
      input: Input)
    requires Feeds(pending, wakeups, input) && piece != []
    requires delivered + pending == ChannelReader.Payload(consumed)
    requires (delivered + piece) + left == ChannelReader.Payload(consumed')
    requires pending == [] ==>
      && ChannelReader.OutcomeOf(ChannelReader.Decider(wakeups), READ_BUFFER) == ChannelReader.Read(|piece|)
      && wakeups' == ChannelReader.Left(wakeups) && consumed' == consumed + ChannelReader.Taken(wakeups)
    requires pending != [] ==>
      |piece| == Min(READ_BUFFER, |pending|) && wakeups' == wakeups && consumed' == consumed
    ensures IsNext(piece, input) && Feeds(left, wakeups', Advance(input))
    ensures pending == [] ==> !ChannelReader.Ends(ChannelReader.Decider(wakeups))
  {
    ChannelReader.AssociateBytes(delivered, piece, left);
    if pending == [] {
      ChannelReader.NothingPending(delivered, piece);
      WaitRead(consumed, wakeups, READ_BUFFER, piece, left, input);
    } else {
      SamePayload(delivered, pending, piece, left);
      PendingRead(pending, wakeups, piece, left, input);
    }
  }

  /** A wait without data is the end of the input, quiet or not. */
  lemma LastRead(wakeups: seq<ChannelReader.Wakeup>, input: Input)
    requires Feeds([], wakeups, input)
    requires
      var outcome := ChannelReader.OutcomeOf(ChannelReader.Decider(wakeups), READ_BUFFER);
      !outcome.Read? || outcome.count == 0
    ensures input.pieces == [] && ChannelReader.Left(wakeups) == input.beyond
    ensures ChannelReader.Decider(wakeups) == input.stop
    ensures QuietEnd(input.stop) <==> ChannelReader.OutcomeOf(ChannelReader.Decider(wakeups), READ_BUFFER).Read?
  {
    ChannelReader.CopyStep([], wakeups);
    ChannelReader.PiecesStep(wakeups, READ_BUFFER);
    ChannelReader.DeciderIsNotSkipped(wakeups);
  }

  /** What is handed out and what is left pending make up what was pending. */
  lemma SamePayload(delivered: bytes, whole: bytes, piece: bytes, rest: bytes)
    requires delivered + whole == delivered + (piece + rest)
    ensures whole == piece + rest
  {
    assert whole == (delivered + whole)[|delivered|..];
    assert (delivered + (piece + rest))[|delivered|..] == piece + rest;
  }

  // ----- The answers of the output -----

  datatype CopyEnd = CopyDone | CopyFailed | CopyUnfinished

  /** What is made of one chunk; without an end the copy goes on. */
  datatype Printed = Printed(end: Option<CopyEnd>, taken: bytes, left: seq<Cue>)

  /** The first answer is that to the write of the chunk, the second that to the flush. */
  function Print(chunk: bytes, script: seq<Cue>): Printed {
    if script == [] then Printed(Some(CopyUnfinished), [], [])
    else if script[0].Breaks? then Printed(Some(CopyFailed), chunk[..Min(script[0].count, |chunk|)], script[1..])
    else if |script| == 1 then Printed(Some(CopyUnfinished), chunk, [])
    else if script[1].Fails? then Printed(Some(CopyFailed), chunk, script[2..])
    else Printed(None, chunk, script[2..])
  }

  /** The next read and what is made of it. */
  function CopyOne(pieces: seq<bytes>, script: seq<Cue>, quiet: bool): (p: Printed)
    ensures p.end.None? ==> pieces != [] && |script| >= 2 && p == Printed(None, pieces[0], script[2..])
  {
    if pieces == [] then Printed(Some(if quiet then CopyDone else CopyFailed), [], script)
    else Print(pieces[0], script)
  }

  datatype CopyResult = CopyResult(end: CopyEnd, printed: bytes, count: nat, left: seq<Cue>)

  /** A whole copy: the pieces that reads hand out, the answers of the output, and whether the reads end quietly. */
  function Copying(pieces: seq<bytes>, script: seq<Cue>, quiet: bool, printed: bytes, count: nat): CopyResult
    decreases |pieces|
  {
    var p := CopyOne(pieces, script, quiet);
    if p.end.Some? then CopyResult(p.end.value, printed + p.taken, count, p.left)
    else Copying(pieces[1..], p.left, quiet, printed + p.taken, Saturate(count + |pieces[0]|))
  }

  /** A refused write or a refused flush, by its place. */
  predicate Refuses(k: nat, answer: Cue) {
    if k % 2 == 0 then answer.Breaks? else answer.Fails?
  }

  predicate Accepted(answers: seq<Cue>) {
    forall k :: 0 <= k < |answers| ==> !Refuses(k, answers[k])
  }

  /** The last answer is the first refusal. */
  predicate Refused(answers: seq<Cue>) {
    answers != [] && (var n := |answers| - 1; Accepted(answers[..n]) && Refuses(n, answers[n]))
  }

  predicate Suffix(before: seq<Cue>, after: seq<Cue>) {
    |after| <= |before| && before[|before| - |after|..] == after
  }

  /** What was taken from a script. */
  function Taken(before: seq<Cue>, after: seq<Cue>): seq<Cue> {
    if |after| <= |before| then before[..|before| - |after|] else []
  }

  lemma AcceptedAdd(a: seq<Cue>, b: seq<Cue>)
    requires |a| % 2 == 0 && Accepted(a) && Accepted(b)
    ensures Accepted(a + b)
  {
    forall k | 0 <= k < |a + b|
      ensures !Refuses(k, (a + b)[k])
    {
      if k >= |a| {
        assert !Refuses(k - |a|, b[k - |a|]);
      }
    }
  }

  lemma RefusedAdd(a: seq<Cue>, b: seq<Cue>)
    requires |a| % 2 == 0 && Accepted(a) && Refused(b)
    ensures Refused(a + b)
  {
    var n := |b| - 1;
    AcceptedAdd(a, b[..n]);
    assert (a + b)[..|a| + n] == a + b[..n];
    assert (a + b)[|a| + n] == b[n];
  }

  lemma AcceptedTwo(script: seq<Cue>)
    requires |script| >= 2
    ensures Accepted(script) <==> !script[0].Breaks? && !script[1].Fails? && Accepted(script[2..])
  {
    if Accepted(script) {
      assert !Refuses(0, script[0]) && !Refuses(1, script[1]);
      forall k | 0 <= k < |script| - 2
        ensures !Refuses(k, script[2..][k])
      {
        assert !Refuses(k + 2, script[k + 2]);
      }
    }
    if Accepted(script[..2]) && Accepted(script[2..]) {
      AcceptedAdd(script[..2], script[2..]);
      assert script[..2] + script[2..] == script;
    }
  }

  lemma AcceptedShort(script: seq<Cue>)
    requires |script| <= 1
    ensures Accepted(script) <==> script == [] || !script[0].Breaks?
  {
    if script != [] {
      assert Refuses(0, script[0]) <==> script[0].Breaks?;
    }
  }

  /** Enough answers for `n` chunks, none of them a refusal. */
  predicate AcceptsAll(script: seq<Cue>, n: nat) {
    |script| >= 2 * n && Accepted(script[..2 * n])
  }

  /** How a copy ends: well if and only if the reads end quietly and the output accepts every chunk. */
  lemma {:induction false} CopyingEnds(
      pieces: seq<bytes>, script: seq<Cue>, quiet: bool, printed: bytes, count: nat)
    ensures
      var end := Copying(pieces, script, quiet, printed, count).end;
      && (end == CopyDone <==> quiet && AcceptsAll(script, |pieces|))
      && (end == CopyUnfinished <==> |script| < 2 * |pieces| && Accepted(script))
    decreases |pieces|
  {
    if pieces != [] {
      var n := |pieces|;
      if |script| >= 2 {
        AcceptedTwo(script);
        CopyingEnds(pieces[1..], script[2..], quiet, printed + pieces[0], Saturate(count + |pieces[0]|));
        if |script| >= 2 * n {
          AcceptedTwo(script[..2 * n]);
          assert script[..2 * n][2..] == script[2..][..2 * (n - 1)];
        }
      } else {
        AcceptedShort(script);
      }
    }
  }

  /** What a copy prints: a prefix of the pieces, and all of them if it is accepted. */
  lemma {:induction false} CopyingPrints(
      pieces: seq<bytes>, script: seq<Cue>, quiet: bool, printed: bytes, count: nat)
    ensures
      var r := Copying(pieces, script, quiet, printed, count);
      && printed <= r.printed <= printed + ChannelReader.Joined(pieces)
      && (r.end == CopyDone ==> r.printed == printed + ChannelReader.Joined(pieces))
    decreases |pieces|
  {
    if pieces == [] {
      assert printed + [] == printed;
    } else {
      var p := Print(pieces[0], script);
      PartOfPiece(printed, p.taken, pieces[0], ChannelReader.Joined(pieces[1..]));
      if p.end.None? {
        CopyingPrints(pieces[1..], p.left, quiet, printed + p.taken, Saturate(count + |pieces[0]|));
      }
    }
  }

  lemma PartOfPiece(printed: bytes, taken: bytes, piece: bytes, rest: bytes)
    requires taken <= piece
    ensures printed <= printed + taken <= printed + (piece + rest)
    ensures (printed + piece) + rest == printed + (piece + rest)
  {
  }

  /** The answers taken: a failure that the reads do not explain comes from the first refusal. */
  lemma {:induction false} CopyingTakes(
      pieces: seq<bytes>, script: seq<Cue>, quiet: bool, printed: bytes, count: nat)
    ensures
      var r := Copying(pieces, script, quiet, printed, count);
      && Suffix(script, r.left)
      && (r.end == CopyDone ==> Accepted(Taken(script, r.left)))
      && (r.end == CopyUnfinished ==> r.left == [])
      && (r.end == CopyFailed ==>
            Refused(Taken(script, r.left)) || (!quiet && r.printed == printed + ChannelReader.Joined(pieces)))
    decreases |pieces|
  {
    if pieces == [] {
      assert printed + [] == printed;
    } else {
      var p := Print(pieces[0], script);
      if p.end.None? {
        var piece, rest := pieces[0], pieces[1..];
        CopyingTakes(rest, p.left, quiet, printed + piece, Saturate(count + |piece|));
        PartOfPiece(printed, piece, piece, ChannelReader.Joined(rest));
        TwoMoreTaken(script, Copying(rest, p.left, quiet, printed + piece, Saturate(count + |piece|)).left);
      } else if script != [] {
        FirstRefusal(script);
      }
    }
  }

  lemma TwoMoreTaken(script: seq<Cue>, left: seq<Cue>)
    requires |script| >= 2 && !script[0].Breaks? && !script[1].Fails? && Suffix(script[2..], left)
    ensures Suffix(script, left)
    ensures Accepted(Taken(script[2..], left)) ==> Accepted(Taken(script, left))
    ensures Refused(Taken(script[2..], left)) ==> Refused(Taken(script, left))
  {
    var more := Taken(script[2..], left);
    assert Taken(script, left) == script[..2] + more;
    assert Accepted(script[..2]);
    if Accepted(more) {
      AcceptedAdd(script[..2], more);
    }
    if Refused(more) {
      RefusedAdd(script[..2], more);
    }
  }

  lemma FirstRefusal(script: seq<Cue>)
    requires script != []
    ensures script[0].Breaks? ==> Refused(Taken(script, script[1..]))
    ensures |script| >= 2 && !script[0].Breaks? && script[1].Fails? ==> Refused(Taken(script, script[2..]))
  {
    assert Taken(script, script[1..]) == [script[0]];
    if |script| >= 2 {
      assert Taken(script, script[2..]) == [script[0], script[1]];
    }
  }

  lemma ReadingAll(steps: seq<Step>)
    ensures Run(START, steps).runner == Reading ==> Run(START, steps).printed == Run(START, steps).produced
  {
    StartInv();
    RunKeepsInv(START, steps);
  }

  lemma CopiedAll(steps: seq<Step>)
    ensures
      var s := Run(START, steps);
      s.runner == Raising(true) ==> s.printed == s.produced && s.outputBytes == Saturate(|s.printed|)
  {
    StartInv();
    RunKeepsInv(START, steps);
  }
}
