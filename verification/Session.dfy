/**
 * The full-duplex shell session: an input pump that owns the channel writer,
 * and a runner that pumps output, raises the shared cancellation flag, joins
 * the input pump and closes. Both move in atomic steps under any scheduler;
 * what users, transport and output do is chosen by the cues of the steps.
 */
module Session {
  import opened Common

  const U64_MAX: nat := 0xFFFF_FFFF_FFFF_FFFF
  const READ_BUFFER: nat := 8192

  /** A disconnected sender counts as `Eof`. */
  datatype Event = Data(data: bytes) | Resize | Cancel | Eof | Failure

  /** What the transport has accepted (section 5.3 of RFC 4254 orders these). */
  datatype Sent = SentData(data: bytes) | SentResize | SentEof | SentClose

  /** A pump has stopped with a result and, after an error, that of its one attempt to close. */
  datatype Pump =
    | Receiving
    | Polling
    | Woken(event: Event)
    | Writing(data: bytes, written: nat)
    | AwaitingWrite(data: bytes, written: nat)
    | Resizing
    | AwaitingResize
    | Cancelling
    | CancelClosing
    | Finishing
    | EmergencyClosing
    | Stopped(ok: bool, closeOk: bool)
    | Lost

  datatype Outcome = OutputError | InputError | CloseError | PumpPanicked | Success(input: nat, output: nat)

  datatype Runner =
    | Reading
    | Printing(chunk: bytes)
    | Flushing(chunk: bytes)
    | Raising(outputOk: bool)
    | Joining(outputOk: bool)
    | Closing(outputOk: bool)
    | Done(outcome: Outcome, outputOk: bool, closeOk: bool)

  /** The writer's lifecycle flags. */
  datatype Lifecycle = Lifecycle(inputFinished: bool, closed: bool)

  /**
   * `received`, `whole`, `accepted`, `produced` and `printed` are histories:
   * events taken, data of fully written events, bytes the transport took,
   * bytes read from the channel and bytes the local output took.
   */
  datatype State = State(
    flag: bool,
    pump: Pump, received: seq<Event>, whole: bytes, inputBytes: nat,
    life: Lifecycle, accepted: bytes, sent: seq<Sent>,
    runner: Runner, produced: bytes, printed: bytes, outputBytes: nat)

  const START := State(false, Receiving, [], [], 0, Lifecycle(false, false), [], [], Reading, [], [], 0)

  function Saturate(n: nat): (r: nat)
    ensures n <= 0xFFFF_FFFF_FFFF_FFFF ==> r == n
    ensures n > 0xFFFF_FFFF_FFFF_FFFF ==> r == 0xFFFF_FFFF_FFFF_FFFF
  {
    Min(n, U64_MAX)
  }

  datatype Cue =
    | Go
    | Take(event: Event)
    | Idle
    | Accepts(count: nat)
    | Breaks(count: nat)
    | Interrupts(count: nat)
    | Succeeds
    | Fails
    | Panics
    | Chunk(chunk: bytes)
    | Ends

  // ----- The input pump -----

  function StopOk(s: State): State {
    s.(pump := Stopped(true, true))
  }

  function Fail(s: State): State {
    s.(pump := EmergencyClosing)
  }

  function Accept(s: State, data: bytes): State {
    s.(accepted := s.accepted + data, sent := if data == [] then s.sent else s.sent + [SentData(data)])
  }

  function MarkClosed(s: State): State {
    s.(life := Lifecycle(true, true), sent := s.sent + [SentClose])
  }

  function Dispatch(s: State, event: Event): State {
    match event
    case Data(data) => s.(pump := Writing(data, 0))
    case Resize => s.(pump := Resizing)
    case Cancel => s.(pump := Cancelling)
    case Eof => s.(pump := Finishing)
    case Failure => Fail(s)
  }

  function WriteNext(s: State, data: bytes, written: nat): State {
    if written >= |data| then
      s.(whole := s.whole + data, inputBytes := Saturate(s.inputBytes + |data|), pump := Receiving)
    else if s.life.closed || s.life.inputFinished then Fail(s)
    else if s.flag then StopOk(s)
    else s.(pump := AwaitingWrite(data, written))
  }

  /** One step of the pump, or `None` when the cue is not possible. */
  function PumpStep(s: State, cue: Cue): Option<State> {
    match s.pump
    case Stopped(_, _) => None
    case Lost => None
    case EmergencyClosing =>
      if cue.Panics? then Some(s.(pump := Lost))
      else if s.life.closed then if cue.Go? then Some(s.(pump := Stopped(false, true))) else None
      else if cue.Succeeds? then Some(MarkClosed(s).(pump := Stopped(false, true)))
      else if cue.Fails? then Some(s.(pump := Stopped(false, false)))
      else None
    case _ => if cue.Panics? then Some(Fail(s)) else PumpWorks(s, cue)
  }

  function PumpWorks(s: State, cue: Cue): Option<State> {
    match s.pump
    case Receiving =>
      if !cue.Go? then None else if s.flag then Some(StopOk(s)) else Some(s.(pump := Polling))
    case Polling =>
      if cue.Take? then Some(s.(received := s.received + [cue.event], pump := Woken(cue.event)))
      else if cue.Idle? then Some(s.(pump := Receiving))
      else None
    case Woken(event) =>
      if !cue.Go? then None else if s.flag then Some(StopOk(s)) else Some(Dispatch(s, event))
    case Writing(data, written) => if cue.Go? then Some(WriteNext(s, data, written)) else None
    case AwaitingWrite(data, written) => WriteAnswers(s, data, written, cue)
    case Resizing =>
      if !cue.Go? then None else if s.flag then Some(StopOk(s)) else Some(s.(pump := AwaitingResize))
    case AwaitingResize =>
      if cue.Succeeds? then Some(s.(sent := s.sent + [SentResize], pump := Receiving))
      else if cue.Fails? then Some(Fail(s))
      else if cue.Interrupts? && s.flag then Some(StopOk(s))
      else None
    case Cancelling => if cue.Go? then Some(s.(flag := true, pump := CancelClosing)) else None
    case CancelClosing =>
      if s.life.closed then if cue.Go? then Some(StopOk(s)) else None
      else if cue.Succeeds? then Some(StopOk(MarkClosed(s)))
      else if cue.Fails? then Some(Fail(s))
      else None
    case Finishing =>
      if s.life.closed || s.life.inputFinished then if cue.Go? then Some(StopOk(s)) else None
      else if cue.Succeeds? then
        Some(StopOk(s.(life := s.life.(inputFinished := true), sent := s.sent + [SentEof])))
      else if cue.Fails? then Some(Fail(s))
      else None
    case _ => None
  }

  /**
   * A write takes some of the offered bytes (the native writer takes all),
   * breaks after some, or is interrupted after some once the flag is up.
   */
  function WriteAnswers(s: State, data: bytes, written: nat, cue: Cue): Option<State> {
    if written > |data| then None
    else
      var left := data[written..];
      match cue
      case Accepts(n) =>
        if n > |left| then None
        else if n == 0 then Some(Fail(s))
        else Some(Accept(s, left[..n]).(pump := Writing(data, written + n)))
      case Breaks(n) => if n > |left| then None else Some(Fail(Accept(s, left[..n])))
      case Interrupts(n) =>
        if n > |left| || !s.flag then None else Some(StopOk(Accept(s, left[..n])))
      case _ => None
  }

  // ----- The runner -----

  /** The error of the output comes first, then that of the input, then that of closing. */
  function Decide(s: State, outputOk: bool, inputOk: bool, closeOk: bool): Outcome {
    if !outputOk then OutputError
    else if !inputOk then InputError
    else if !closeOk then CloseError
    else Success(s.inputBytes, s.outputBytes)
  }

  function RunnerStep(s: State, cue: Cue): Option<State> {
    match s.runner
    case Reading =>
      (match cue
       case Chunk(chunk) =>
         if 0 < |chunk| <= READ_BUFFER then Some(s.(produced := s.produced + chunk, runner := Printing(chunk)))
         else None
       case Ends => Some(s.(runner := Raising(true)))
       case Fails => Some(s.(runner := Raising(false)))
       case _ => None)
    case Printing(chunk) =>
      (match cue
       case Succeeds => Some(s.(printed := s.printed + chunk, runner := Flushing(chunk)))
       case Breaks(n) =>
         if n > |chunk| then None else Some(s.(printed := s.printed + chunk[..n], runner := Raising(false)))
       case _ => None)
    case Flushing(chunk) =>
      (match cue
       case Succeeds => Some(s.(outputBytes := Saturate(s.outputBytes + |chunk|), runner := Reading))
       case Fails => Some(s.(runner := Raising(false)))
       case _ => None)
    case Raising(ok) => if cue.Go? then Some(s.(flag := true, runner := Joining(ok))) else None
    case Joining(ok) => if cue.Go? then Join(s, ok) else None
    case Closing(ok) =>
      if s.life.closed then
        if cue.Go? then Some(s.(runner := Done(Decide(s, ok, true, true), ok, true))) else None
      else if cue.Succeeds? then
        Some(MarkClosed(s).(runner := Done(Decide(s, ok, true, true), ok, true)))
      else if cue.Fails? then Some(s.(runner := Done(Decide(s, ok, true, false), ok, false)))
      else None
    case Done(_, _, _) => None
  }

  function Join(s: State, ok: bool): Option<State> {
    match s.pump
    case Lost => Some(s.(runner := Done(if ok then PumpPanicked else OutputError, ok, false)))
    case Stopped(true, _) => Some(s.(runner := Closing(ok)))
    case Stopped(false, closeOk) => Some(s.(runner := Done(Decide(s, ok, false, closeOk), ok, closeOk)))
    case _ => None
  }

  datatype Step = PumpMoves(cue: Cue) | RunnerMoves(cue: Cue)

  function Next(s: State, step: Step): State {
    var next := if step.PumpMoves? then PumpStep(s, step.cue) else RunnerStep(s, step.cue);
    if next.Some? then next.value else s
  }

  function Run(s: State, steps: seq<Step>): State
    decreases |steps|
  {
    if steps == [] then s else Run(Next(s, steps[0]), steps[1..])
  }

  // ----- Conservation of input -----

  /** The concatenated data events. */
  function Offered(events: seq<Event>): bytes {
    if events == [] then []
    else
      Offered(events[..|events| - 1])
      + if events[|events| - 1].Data? then events[|events| - 1].data else []
  }

  /** The concatenated data the transport took. */
  function Transported(sent: seq<Sent>): bytes {
    if sent == [] then []
    else
      Transported(sent[..|sent| - 1])
      + if sent[|sent| - 1].SentData? then sent[|sent| - 1].data else []
  }

  ghost predicate LastIs(s: State, event: Event) {
    s.received != [] && s.received[|s.received| - 1] == event
  }

  function OfferedBefore(s: State): bytes {
    if s.received == [] then [] else Offered(s.received[..|s.received| - 1])
  }

  predicate MidWrite(pump: Pump) {
    pump.Writing? || pump.AwaitingWrite?
  }

  predicate Ending(pump: Pump) {
    pump.EmergencyClosing? || pump.Stopped? || pump.Lost?
  }

  ghost predicate InputInv(s: State) {
    && s.inputBytes == Saturate(|s.whole|)
    && Transported(s.sent) == s.accepted
    && s.whole <= s.accepted <= Offered(s.received)
    && (s.whole == Offered(s.received) || s.whole == OfferedBefore(s))
    && (s.pump.Woken? ==> LastIs(s, s.pump.event) && s.accepted == s.whole == OfferedBefore(s))
    && (MidWrite(s.pump) ==>
          && LastIs(s, Data(s.pump.data)) && s.pump.written <= |s.pump.data|
          && s.whole == OfferedBefore(s) && s.accepted == s.whole + s.pump.data[..s.pump.written])
    && (!Ending(s.pump) && !s.pump.Woken? && !MidWrite(s.pump) ==>
          s.accepted == s.whole == Offered(s.received))
  }

  // ----- Order on the wire -----

  /** Data and resizes come before end-of-file and close; nothing follows a close. */
  ghost predicate WellOrdered(sent: seq<Sent>) {
    sent == [] ||
    (var n := |sent| - 1;
     && WellOrdered(sent[..n])
     && SentClose !in sent[..n]
     && (sent[n] != SentClose ==> SentEof !in sent[..n]))
  }

  ghost predicate WireInv(s: State) {
    && WellOrdered(s.sent)
    && (s.life.closed <==> SentClose in s.sent)
    && (s.life.inputFinished <==> SentEof in s.sent || SentClose in s.sent)
    && (!Ending(s.pump) ==> s.life == Lifecycle(false, false))
  }

  // ----- Conservation of output, and the end -----

  ghost predicate OutputInv(s: State) {
    match s.runner
    case Reading => s.printed == s.produced && s.outputBytes == Saturate(|s.printed|)
    case Printing(chunk) => s.produced == s.printed + chunk && s.outputBytes == Saturate(|s.printed|)
    case Flushing(chunk) =>
      && s.produced == s.printed && |chunk| <= |s.printed|
      && s.outputBytes == Saturate(|s.printed| - |chunk|)
    case Raising(ok) => Copied(s, ok)
    case Joining(ok) => Copied(s, ok) && s.flag
    case Closing(ok) => Copied(s, ok) && s.flag && s.pump == Stopped(true, true)
    case Done(outcome, ok, closeOk) =>
      && Copied(s, ok) && s.flag
      && (s.pump.Stopped? || s.pump.Lost?)
      && (s.pump.Stopped? ==> outcome == Decide(s, ok, s.pump.ok, closeOk))
      && (s.pump.Lost? ==> outcome == if ok then PumpPanicked else OutputError)
      && (outcome.Success? ==> s.life.closed)
  }

  ghost predicate Copied(s: State, ok: bool) {
    && s.printed <= s.produced
    && (ok ==> s.printed == s.produced && s.outputBytes == Saturate(|s.printed|))
  }

  ghost predicate Inv(s: State) {
    InputInv(s) && WireInv(s) && OutputInv(s) && StopInv(s) && ResizeInv(s)
  }

  /** The pump ends without error only when cancelled or when it has finished the input. */
  ghost predicate StopInv(s: State) {
    && (s.pump.CancelClosing? ==> s.flag)
    && (s.pump.Stopped? && s.pump.ok ==> s.pump.closeOk && (s.flag || s.life.inputFinished))
  }

  predicate ResizeDue(pump: Pump) {
    pump == Woken(Resize) || pump.Resizing? || pump.AwaitingResize?
  }

  /** Every resize is forwarded before the next event; only the last may be lost at the end. */
  ghost predicate ResizeInv(s: State) {
    var asked, done := multiset(s.received)[Resize], multiset(s.sent)[SentResize];
    && done <= asked <= done + 1
    && (!Ending(s.pump) ==> asked == done + if ResizeDue(s.pump) then 1 else 0)
  }

  lemma OfferedSnoc(events: seq<Event>, e: Event)
    ensures Offered(events + [e]) == Offered(events) + if e.Data? then e.data else []
  {
    assert (events + [e])[..|events|] == events;
  }

  lemma OfferedLast(s: State, event: Event)
    requires LastIs(s, event)
    ensures Offered(s.received) == if event.Data? then OfferedBefore(s) + event.data else OfferedBefore(s)
  {
    assert OfferedBefore(s) + [] == OfferedBefore(s);
  }

  lemma SentSnoc(sent: seq<Sent>, x: Sent)
    ensures Transported(sent + [x]) == Transported(sent) + if x.SentData? then x.data else []
    ensures WellOrdered(sent) && SentClose !in sent && (x != SentClose ==> SentEof !in sent) ==>
      WellOrdered(sent + [x])
  {
    assert (sent + [x])[..|sent|] == sent;
  }

  lemma AcceptKeeps(s: State, data: bytes)
    requires Transported(s.sent) == s.accepted && WireInv(s)
    requires s.life == Lifecycle(false, false)
    ensures Transported(Accept(s, data).sent) == Accept(s, data).accepted
    ensures WireInv(Accept(s, data))
  {
    SentSnoc(s.sent, SentData(data));
    assert data == [] ==> s.accepted + data == s.accepted;
  }

  /** How far a write gets, it stays within the event that is being written. */
  lemma WriteStaysInside(s: State, n: nat)
    requires InputInv(s) && s.pump.AwaitingWrite? && s.pump.written + n <= |s.pump.data|
    ensures
      var taken := s.pump.data[s.pump.written..][..n];
      && s.accepted + taken == s.whole + s.pump.data[..s.pump.written + n]
      && s.whole <= s.accepted + taken <= Offered(s.received)
  {
    var data, w := s.pump.data, s.pump.written;
    OfferedLast(s, Data(data));
    PartOfWrite(s.whole, data, w, n);
  }

  lemma PartOfWrite(whole: bytes, data: bytes, w: nat, n: nat)
    requires w + n <= |data|
    ensures whole + data[..w] + data[w..][..n] == whole + data[..w + n]
    ensures whole <= whole + data[..w + n] <= whole + data
  {
    assert data[..w] + data[w..][..n] == data[..w + n];
    assert whole + data == (whole + data[..w + n]) + data[w + n..];
  }

  lemma PartWritten(s: State, t: State, n: nat)
    requires InputInv(s) && s.pump.AwaitingWrite? && s.pump.written + n <= |s.pump.data|
    requires t.received == s.received && t.whole == s.whole && t.inputBytes == s.inputBytes
    requires t.accepted == s.accepted + s.pump.data[s.pump.written..][..n] == Transported(t.sent)
    requires Ending(t.pump) || t.pump == Writing(s.pump.data, s.pump.written + n)
    ensures InputInv(t)
  {
    WriteStaysInside(s, n);
  }

  lemma WriteKeepsInput(s: State, cue: Cue)
    requires InputInv(s) && WireInv(s) && s.pump.AwaitingWrite?
    requires WriteAnswers(s, s.pump.data, s.pump.written, cue).Some?
    ensures InputInv(WriteAnswers(s, s.pump.data, s.pump.written, cue).value)
  {
    var taken := s.pump.data[s.pump.written..][..cue.count];
    AcceptKeeps(s, taken);
    assert cue.count == 0 ==> s.accepted + taken == s.accepted;
    PartWritten(s, WriteAnswers(s, s.pump.data, s.pump.written, cue).value, cue.count);
  }

  lemma WriteKeepsWire(s: State, cue: Cue)
    requires InputInv(s) && WireInv(s) && s.pump.AwaitingWrite?
    requires WriteAnswers(s, s.pump.data, s.pump.written, cue).Some?
    ensures WireInv(WriteAnswers(s, s.pump.data, s.pump.written, cue).value)
  {
    var left := s.pump.data[s.pump.written..];
    var n := if cue.Accepts? || cue.Breaks? || cue.Interrupts? then cue.count else 0;
    AcceptKeeps(s, left[..n]);
  }

  lemma WriteNextKeepsInput(s: State)
    requires InputInv(s) && WireInv(s) && s.pump.Writing?
    ensures InputInv(WriteNext(s, s.pump.data, s.pump.written))
  {
    var data := s.pump.data;
    if s.pump.written >= |data| {
      assert data[..s.pump.written] == data;
      OfferedLast(s, Data(data));
    }
  }

  lemma TakeKeepsInput(s: State, event: Event)
    requires InputInv(s) && s.pump.Polling?
    ensures InputInv(s.(received := s.received + [event], pump := Woken(event)))
  {
    OfferedSnoc(s.received, event);
    assert (s.received + [event])[..|s.received|] == s.received;
    assert Offered(s.received) + [] == Offered(s.received);
  }

  lemma DispatchKeepsInput(s: State)
    requires InputInv(s) && s.pump.Woken?
    ensures InputInv(Dispatch(s, s.pump.event))
  {
    OfferedLast(s, s.pump.event);
    if s.pump.event.Data? {
      StartOfWrite(s.whole, s.pump.event.data);
    }
  }

  lemma StartOfWrite(whole: bytes, data: bytes)
    ensures whole == whole + data[..0]
  {
    assert data[..0] == [];
  }

  /** A step that takes no data and no event, and does not leave an event half done. */
  lemma QuietKeepsInput(s: State, t: State)
    requires InputInv(s)
    requires t.received == s.received && t.whole == s.whole && t.inputBytes == s.inputBytes
    requires t.accepted == s.accepted == Transported(t.sent)
    requires !t.pump.Woken? && !MidWrite(t.pump)
    requires Ending(t.pump) || (!Ending(s.pump) && !s.pump.Woken? && !MidWrite(s.pump))
    ensures InputInv(t)
  {
  }

  lemma QuietTransport(sent: seq<Sent>, x: Sent)
    requires !x.SentData?
    ensures Transported(sent + [x]) == Transported(sent)
  {
    SentSnoc(sent, x);
    assert Transported(sent) + [] == Transported(sent);
  }

  predicate Quiet(s: State, cue: Cue) {
    || cue.Panics?
    || !(s.pump.AwaitingWrite? || s.pump.Writing?
         || (s.pump.Polling? && cue.Take?) || (s.pump.Woken? && !s.flag))
  }

  /** No data moves, and at most one message that is not data is sent. */
  predicate Still(s: State, t: State) {
    && t.received == s.received && t.whole == s.whole && t.inputBytes == s.inputBytes
    && t.accepted == s.accepted
    && !t.pump.Woken? && !MidWrite(t.pump)
    && (Ending(t.pump) || (!Ending(s.pump) && !s.pump.Woken? && !MidWrite(s.pump)))
    && (|| (&& t.sent == s.sent && t.life == s.life
            && (Ending(t.pump) || ResizeDue(t.pump) == ResizeDue(s.pump)))
        || (&& t.sent == s.sent + [SentResize] && t.life == s.life
            && s.pump.AwaitingResize? && t.pump.Receiving?)
        || (&& t.sent == s.sent + [SentEof] && t.life == s.life.(inputFinished := true)
            && s.pump.Finishing? && !s.life.closed && !s.life.inputFinished && Ending(t.pump))
        || (&& t.sent == s.sent + [SentClose] && t.life == Lifecycle(true, true)
            && !s.life.closed && Ending(t.pump)))
  }

  /** What the steps that handle no data can do. */
  lemma QuietSteps(s: State, cue: Cue)
    requires PumpStep(s, cue).Some? && Quiet(s, cue)
    ensures Still(s, PumpStep(s, cue).value)
  {
  }

  lemma QuietKeeps(s: State, cue: Cue)
    requires InputInv(s) && WireInv(s) && PumpStep(s, cue).Some? && Quiet(s, cue)
    ensures InputInv(PumpStep(s, cue).value) && WireInv(PumpStep(s, cue).value)
  {
    QuietSteps(s, cue);
    QuietKeepsInv(s, PumpStep(s, cue).value);
  }

  lemma PumpKeepsInput(s: State, cue: Cue)
    requires InputInv(s) && WireInv(s) && PumpStep(s, cue).Some?
    ensures InputInv(PumpStep(s, cue).value) && WireInv(PumpStep(s, cue).value)
  {
    if Quiet(s, cue) {
      QuietKeeps(s, cue);
    } else if s.pump.AwaitingWrite? {
      WriteKeepsInput(s, cue);
      WriteKeepsWire(s, cue);
    } else if s.pump.Writing? {
      WriteNextKeepsInput(s);
      SameWire(s, PumpStep(s, cue).value);
    } else if s.pump.Polling? {
      TakeKeepsInput(s, cue.event);
      SameWire(s, PumpStep(s, cue).value);
    } else {
      DispatchKeepsInput(s);
      SameWire(s, PumpStep(s, cue).value);
    }
  }

  lemma QuietKeepsInv(s: State, t: State)
    requires InputInv(s) && WireInv(s)
    requires Still(s, t)
    ensures InputInv(t) && WireInv(t)
  {
    QuietTransport(s.sent, SentResize);
    QuietTransport(s.sent, SentEof);
    QuietTransport(s.sent, SentClose);
    QuietKeepsInput(s, t);
    if t.sent == s.sent {
      SameWire(s, t);
    } else if t.sent == s.sent + [SentResize] {
      SentSnoc(s.sent, SentResize);
    } else if t.sent == s.sent + [SentEof] {
      SentSnoc(s.sent, SentEof);
    } else {
      CloseKeepsWire(s, t);
    }
  }

  lemma SameWire(s: State, t: State)
    requires WireInv(s) && t.sent == s.sent && t.life == s.life
    requires Ending(t.pump) || !Ending(s.pump)
    ensures WireInv(t)
  {
  }

  lemma CloseKeepsWire(s: State, t: State)
    requires WireInv(s) && !s.life.closed
    requires t.sent == s.sent + [SentClose] && t.life == Lifecycle(true, true) && Ending(t.pump)
    ensures WireInv(t)
  {
    SentSnoc(s.sent, SentClose);
  }

  lemma PumpKeepsOutput(s: State, cue: Cue)
    requires OutputInv(s) && StopInv(s) && PumpStep(s, cue).Some?
    ensures OutputInv(PumpStep(s, cue).value)
    ensures s.flag ==> PumpStep(s, cue).value.flag
  {
    PumpLeavesOutput(s, cue);
  }

  lemma PumpLeavesOutput(s: State, cue: Cue)
    requires PumpStep(s, cue).Some?
    ensures
      var t := PumpStep(s, cue).value;
      && t.runner == s.runner && t.produced == s.produced && t.printed == s.printed
      && t.outputBytes == s.outputBytes
      && (s.flag ==> t.flag) && !s.pump.Stopped? && !s.pump.Lost?
  {
  }

  lemma PumpKeepsStop(s: State, cue: Cue)
    requires WireInv(s) && StopInv(s) && PumpStep(s, cue).Some?
    ensures StopInv(PumpStep(s, cue).value)
  {
  }

  predicate ForwardsResize(s: State, t: State) {
    t.sent == s.sent + [SentResize]
  }

  predicate TakesEvent(s: State, t: State) {
    s.pump.Polling? && t.pump.Woken? && t.received == s.received + [t.pump.event] && t.sent == s.sent
  }

  /** A step takes an event, forwards the resize that is due, or leaves both counts alone. */
  lemma PumpTraffic(s: State, cue: Cue)
    requires PumpStep(s, cue).Some?
    ensures
      var t := PumpStep(s, cue).value;
      || TakesEvent(s, t)
      || (ForwardsResize(s, t) && s.pump.AwaitingResize? && t.pump.Receiving? && t.received == s.received)
      || (&& t.received == s.received && multiset(t.sent)[SentResize] == multiset(s.sent)[SentResize]
          && (!Ending(t.pump) ==> !Ending(s.pump) && ResizeDue(t.pump) == ResizeDue(s.pump)))
  {
    if Quiet(s, cue) {
      QuietSteps(s, cue);
    } else {
      DataTraffic(s, cue);
    }
  }

  lemma DataTraffic(s: State, cue: Cue)
    requires PumpStep(s, cue).Some? && !Quiet(s, cue)
    ensures
      var t := PumpStep(s, cue).value;
      || TakesEvent(s, t)
      || (&& t.received == s.received
          && (t.sent == s.sent || (|t.sent| == |s.sent| + 1 && t.sent == s.sent + [SentData(t.sent[|s.sent|].data)]))
          && (Ending(t.pump) || ResizeDue(t.pump) == ResizeDue(s.pump)) && !Ending(s.pump))
  {
  }

  lemma PumpKeepsResizes(s: State, cue: Cue)
    requires ResizeInv(s) && PumpStep(s, cue).Some?
    ensures ResizeInv(PumpStep(s, cue).value)
  {
    PumpTraffic(s, cue);
  }

  lemma RunnerKeepsInv(s: State, cue: Cue)
    requires Inv(s) && RunnerStep(s, cue).Some?
    ensures Inv(RunnerStep(s, cue).value)
    ensures s.flag ==> RunnerStep(s, cue).value.flag
  {
    RunnerKeepsInput(s, cue);
    RunnerKeepsOutput(s, cue);
    RunnerKeepsResizes(s, cue);
  }

  lemma RunnerKeepsResizes(s: State, cue: Cue)
    requires OutputInv(s) && StopInv(s) && ResizeInv(s) && RunnerStep(s, cue).Some?
    ensures ResizeInv(RunnerStep(s, cue).value) && StopInv(RunnerStep(s, cue).value)
  {
    RunnerLeavesInput(s, cue);
  }

  lemma RunnerKeepsInput(s: State, cue: Cue)
    requires InputInv(s) && WireInv(s) && OutputInv(s) && RunnerStep(s, cue).Some?
    ensures InputInv(RunnerStep(s, cue).value) && WireInv(RunnerStep(s, cue).value)
    ensures RunnerStep(s, cue).value.pump == s.pump
  {
    RunnerLeavesInput(s, cue);
    var t := RunnerStep(s, cue).value;
    if t.sent != s.sent {
      QuietTransport(s.sent, SentClose);
      CloseKeepsWire(s, t);
    }
  }

  lemma RunnerLeavesInput(s: State, cue: Cue)
    requires OutputInv(s) && RunnerStep(s, cue).Some?
    ensures
      var t := RunnerStep(s, cue).value;
      && t.pump == s.pump && t.received == s.received && t.whole == s.whole
      && t.inputBytes == s.inputBytes && t.accepted == s.accepted
      && ((t.sent == s.sent && t.life == s.life)
          || (&& t.sent == s.sent + [SentClose] && t.life == Lifecycle(true, true)
              && !s.life.closed && Ending(s.pump)))
  {
  }

  lemma RunnerKeepsOutput(s: State, cue: Cue)
    requires OutputInv(s) && StopInv(s) && RunnerStep(s, cue).Some?
    ensures OutputInv(RunnerStep(s, cue).value)
    ensures s.flag ==> RunnerStep(s, cue).value.flag
  {
  }

  /** Every interleaving keeps the invariant, and the flag never goes back. */
  lemma {:induction false} RunKeepsInv(s: State, steps: seq<Step>)
    requires Inv(s)
    ensures Inv(Run(s, steps))
    ensures s.flag ==> Run(s, steps).flag
    decreases |steps|
  {
    if steps != [] {
      if steps[0].PumpMoves? {
        if PumpStep(s, steps[0].cue).Some? {
          PumpKeepsInput(s, steps[0].cue);
          PumpKeepsOutput(s, steps[0].cue);
          PumpKeepsStop(s, steps[0].cue);
          PumpKeepsResizes(s, steps[0].cue);
        }
      } else if RunnerStep(s, steps[0].cue).Some? {
        RunnerKeepsInv(s, steps[0].cue);
      }
      RunKeepsInv(Next(s, steps[0]), steps[1..]);
    }
  }

  lemma StartInv()
    ensures Inv(START)
  {
  }

  // ----- What a caller sees -----

  /** What well ordered means for any two messages that were sent. */
  lemma {:induction false} OrderMeans(sent: seq<Sent>)
    ensures WellOrdered(sent) <==> InOrder(sent)
    decreases |sent|
  {
    if sent != [] {
      var n := |sent| - 1;
      var most := sent[..n];
      OrderMeans(most);
      assert forall i :: 0 <= i < n ==> sent[i] == most[i];
      assert SentClose in most <==> exists i :: 0 <= i < n && sent[i] == SentClose;
      assert SentEof in most <==> exists i :: 0 <= i < n && sent[i] == SentEof;
      OrderSplit(sent);
    }
  }

  ghost predicate InOrder(sent: seq<Sent>) {
    forall i, j :: 0 <= i < j < |sent| ==> MayPrecede(sent[i], sent[j])
  }

  predicate MayPrecede(earlier: Sent, later: Sent) {
    earlier != SentClose && (earlier == SentEof ==> later == SentClose)
  }

  lemma OrderSplit(sent: seq<Sent>)
    requires sent != []
    ensures
      var n := |sent| - 1;
      InOrder(sent) <==>
        && InOrder(sent[..n])
        && (forall i :: 0 <= i < n ==> MayPrecede(sent[i], sent[n]))
  {
    var n := |sent| - 1;
    var most := sent[..n];
    assert forall i :: 0 <= i < n ==> most[i] == sent[i];
    if InOrder(sent) {
      forall i, j | 0 <= i < j < n
        ensures MayPrecede(most[i], most[j])
      {
        assert most[i] == sent[i] && most[j] == sent[j];
      }
      assert InOrder(most);
    }
    if InOrder(most) && forall i :: 0 <= i < n ==> MayPrecede(sent[i], sent[n]) {
      forall i, j | 0 <= i < j < |sent|
        ensures MayPrecede(sent[i], sent[j])
      {
        if j < n {
          assert most[i] == sent[i] && most[j] == sent[j];
        }
      }
    }
  }

  /** Under every schedule and whatever the transport does, no byte is invented, reordered or miscounted. */
  lemma EveryRunConservesInput(steps: seq<Step>)
    ensures
      var s := Run(START, steps);
      && Transported(s.sent) <= Offered(s.received)
      && s.whole <= Transported(s.sent)
      && (s.whole == Offered(s.received) || s.whole == Offered(s.received[..|s.received| - 1]))
      && s.inputBytes == Saturate(|s.whole|)
  {
    StartInv();
    RunKeepsInv(START, steps);
  }

  /** What the transport took is data and resizes, then at most one end-of-file, then at most one close. */
  lemma EveryRunIsOrdered(steps: seq<Step>)
    ensures InOrder(Run(START, steps).sent)
  {
    StartInv();
    RunKeepsInv(START, steps);
    OrderMeans(Run(START, steps).sent);
  }

  /** Resizes are forwarded one by one; at most the last one asked for is lost when the pump ends. */
  lemma EveryResizeIsForwarded(steps: seq<Step>)
    ensures
      var s := Run(START, steps);
      var asked, done := multiset(s.received)[Resize], multiset(s.sent)[SentResize];
      done <= asked <= done + 1 && (s.pump.Receiving? ==> asked == done)
  {
    StartInv();
    RunKeepsInv(START, steps);
  }

  /** The pump ends without error only when it was cancelled or has sent end-of-file. */
  lemma PumpStopsForAReason(steps: seq<Step>)
    requires Run(START, steps).pump.Stopped? && Run(START, steps).pump.ok
    ensures
      var s := Run(START, steps);
      s.flag || SentEof in s.sent || SentClose in s.sent
  {
    StartInv();
    RunKeepsInv(START, steps);
  }

  /** The local output holds a prefix of what was read, even when the session fails. */
  lemma EveryRunPrintsInOrder(steps: seq<Step>)
    ensures Run(START, steps).printed <= Run(START, steps).produced
  {
    StartInv();
    RunKeepsInv(START, steps);
  }

  /** A success means that all output was written and counted and the channel was closed once, last. */
  lemma SuccessMeans(steps: seq<Step>)
    requires Run(START, steps).runner.Done? && Run(START, steps).runner.outcome.Success?
    ensures
      var s := Run(START, steps);
      var outcome := s.runner.outcome;
      && s.printed == s.produced && outcome.output == Saturate(|s.produced|)
      && outcome.input == Saturate(|s.whole|)
      && s.pump == Stopped(true, true)
      && s.sent != [] && s.sent[|s.sent| - 1] == SentClose
      && SentClose !in s.sent[..|s.sent| - 1]
  {
    StartInv();
    RunKeepsInv(START, steps);
    var s := Run(START, steps);
    assert SentClose in s.sent;
    OrderMeans(s.sent);
  }

  /** An error of the output hides one of the input, which hides one of closing. */
  lemma ErrorsInOrder(steps: seq<Step>)
    requires Run(START, steps).runner.Done? && Run(START, steps).pump.Stopped?
    ensures
      var s := Run(START, steps);
      var outcome := s.runner.outcome;
      && (outcome == OutputError <==> !s.runner.outputOk)
      && (outcome == InputError <==> s.runner.outputOk && !s.pump.ok)
      && (outcome == CloseError <==> s.runner.outputOk && s.pump.ok && !s.runner.closeOk)
      && (outcome.Success? <==> s.runner.outputOk && s.pump.ok && s.runner.closeOk)
  {
    StartInv();
    RunKeepsInv(START, steps);
  }

  /** While the pump takes events its writer is open, so the lifecycle never refuses a write. */
  lemma LifecycleNeverRefuses(steps: seq<Step>)
    requires !Ending(Run(START, steps).pump)
    ensures !Run(START, steps).life.closed && !Run(START, steps).life.inputFinished
  {
    StartInv();
    RunKeepsInv(START, steps);
  }

  lemma RunSingle(s: State, step: Step)
    ensures Run(s, [step]) == Next(s, step)
  {
    assert Run(Next(s, step), [step][1..]) == Next(s, step);
  }

  lemma RunThen(s: State, steps: seq<Step>, step: Step) returns (more: seq<Step>)
    ensures more == steps + [step] && Run(s, more) == Next(Run(s, steps), step)
  {
    more := steps + [step];
    RunSingle(Run(s, steps), step);
    RunAppend(s, steps, [step]);
  }

  lemma {:induction false} RunAppend(s: State, xs: seq<Step>, ys: seq<Step>)
    ensures Run(s, xs + ys) == Run(Run(s, xs), ys)
    decreases |xs|
  {
    if xs == [] {
      assert xs + ys == ys;
    } else {
      assert (xs + ys)[0] == xs[0] && (xs + ys)[1..] == xs[1..] + ys;
      RunAppend(Next(s, xs[0]), xs[1..], ys);
    }
  }

  // ----- Cancellation ends the pump -----

  /** How many steps the pump can still make once the flag is up. */
  function Rank(pump: Pump): nat {
    match pump
    case Stopped(_, _) => 0
    case Lost => 0
    case EmergencyClosing => 1
    case Receiving => 2
    case CancelClosing => 2
    case Finishing => 2
    case Polling => 4
    case AwaitingWrite(_, _) => 4
    case _ => 3
  }

  /** Pump steps that did something, in a run. */
  function PumpSteps(s: State, steps: seq<Step>): nat
    decreases |steps|
  {
    if steps == [] then 0
    else
      (if steps[0].PumpMoves? && PumpStep(s, steps[0].cue).Some? then 1 else 0)
      + PumpSteps(Next(s, steps[0]), steps[1..])
  }

  lemma FlagEndsStep(s: State, step: Step)
    requires s.flag
    ensures Next(s, step).flag
    ensures Rank(Next(s, step).pump)
        + (if step.PumpMoves? && PumpStep(s, step.cue).Some? then 1 else 0) <= Rank(s.pump)
  {
    if step.PumpMoves? {
      FlagEndsPump(s, step.cue);
    } else {
      RunnerLeavesPump(s, step.cue);
    }
  }

  lemma FlagEndsPump(s: State, cue: Cue)
    requires s.flag
    ensures PumpStep(s, cue).Some? ==>
      PumpStep(s, cue).value.flag && Rank(PumpStep(s, cue).value.pump) < Rank(s.pump)
  {
  }

  lemma RunnerLeavesPump(s: State, cue: Cue)
    requires s.flag
    ensures RunnerStep(s, cue).Some? ==>
      RunnerStep(s, cue).value.flag && RunnerStep(s, cue).value.pump == s.pump
  {
  }

  /** Once the flag is up the pump makes at most four more steps, whoever else moves. */
  lemma {:induction false} CancellationEndsThePump(s: State, steps: seq<Step>)
    requires s.flag
    ensures PumpSteps(s, steps) + Rank(Run(s, steps).pump) <= Rank(s.pump) <= 4
    decreases |steps|
  {
    if steps != [] {
      FlagEndsStep(s, steps[0]);
      CancellationEndsThePump(Next(s, steps[0]), steps[1..]);
    }
  }

  /** The cue that needs neither the user nor room in the channel's window. */
  function WayOut(s: State): Cue {
    match s.pump
    case Polling => Idle
    case AwaitingWrite(_, _) => Interrupts(0)
    case AwaitingResize => Interrupts(0)
    case CancelClosing => if s.life.closed then Go else Fails
    case Finishing => if s.life.closed || s.life.inputFinished then Go else Fails
    case EmergencyClosing => if s.life.closed then Go else Fails
    case _ => Go
  }

  /** Steps that the pump makes without an event from the user or an answer of the transport. */
  predicate OnItsOwn(cue: Cue) {
    cue.Go? || cue.Idle? || cue == Interrupts(0)
  }

  /** A close or an end-of-file has been sent off and not been answered. */
  predicate AwaitsTheTransport(s: State) {
    match s.pump
    case CancelClosing => !s.life.closed
    case EmergencyClosing => !s.life.closed
    case Finishing => !s.life.closed && !s.life.inputFinished
    case _ => false
  }

  /**
   * With the flag up the pump can go on by itself if and only if it does not
   * await the answer to a close or an end-of-file, and then either answer
   * moves it on: nothing else can keep the runner's join waiting.
   */
  lemma PumpIsNeverStuck(s: State)
    requires Inv(s) && s.flag && Rank(s.pump) > 0
    ensures PumpStep(s, WayOut(s)).Some?
    ensures (exists cue :: OnItsOwn(cue) && PumpStep(s, cue).Some?) <==> !AwaitsTheTransport(s)
    ensures AwaitsTheTransport(s) ==> PumpStep(s, Succeeds).Some? && PumpStep(s, Fails).Some?
  {
    if !AwaitsTheTransport(s) {
      assert OnItsOwn(WayOut(s)) && PumpStep(s, WayOut(s)).Some?;
    }
  }
}
