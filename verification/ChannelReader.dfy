/**
 * The native channel reader: a byte queue in front of a stream of channel
 * messages (sections 5.2, 5.3 and 6.10 of RFC 4254).
 */
module ChannelReader {
  import opened Common

  datatype ExitSignal = ExitSignal(name: string, coreDumped: bool, errorMessage: string, langTag: string)

  datatype Message =
    | Data(data: bytes)
    | ExtendedData(code: nat, extended: bytes)
    | ExitStatus(status: nat)
    | Signal(signal: ExitSignal)
    | Eof
    | Close
    | Other

  /** What one wait on the channel yields; an exhausted list is an ended stream. */
  datatype Wakeup = Arrived(message: Message) | StreamEnded | CancellationSeen | InactivityDeadline

  datatype SessionResult = SessionResult(exitStatus: Option<nat>, exitSignal: Option<ExitSignal>)

  const NO_RESULT := SessionResult(None, None)

  /** Every payload byte of the messages, in order. */
  function Payload(messages: seq<Message>): bytes {
    if messages == [] then []
    else Payload(messages[..|messages| - 1]) + PayloadOf(messages[|messages| - 1])
  }

  function PayloadOf(m: Message): bytes {
    match m
    case Data(data) => data
    case ExtendedData(_, data) => data
    case _ => []
  }

  /** The last exit status and the last exit signal. */
  function ResultOf(messages: seq<Message>): SessionResult {
    if messages == [] then NO_RESULT
    else
      var before := ResultOf(messages[..|messages| - 1]);
      match messages[|messages| - 1]
      case ExitStatus(status) => before.(exitStatus := Some(status))
      case Signal(signal) => before.(exitSignal := Some(signal))
      case _ => before
  }

  lemma MessagesSnoc(messages: seq<Message>, m: Message)
    ensures Payload(messages + [m]) == Payload(messages) + PayloadOf(m)
    ensures ResultOf(messages + [m])
         == match m
            case ExitStatus(status) => ResultOf(messages).(exitStatus := Some(status))
            case Signal(signal) => ResultOf(messages).(exitSignal := Some(signal))
            case _ => ResultOf(messages)
  {
    assert (messages + [m])[..|messages|] == messages;
  }

  predicate CarriesData(m: Message) {
    m.Data? || m.ExtendedData?
  }

  /** A data message without a byte in it. */
  predicate IsEmptyData(m: Message) {
    CarriesData(m) && PayloadOf(m) == []
  }

  predicate EmptyPayloadIn(messages: seq<Message>) {
    exists i :: 0 <= i < |messages| && IsEmptyData(messages[i])
  }

  lemma EmptyPayloadAppend(a: seq<Message>, b: seq<Message>)
    ensures EmptyPayloadIn(a + b) <==> EmptyPayloadIn(a) || EmptyPayloadIn(b)
  {
    if EmptyPayloadIn(a) {
      var i :| 0 <= i < |a| && IsEmptyData(a[i]);
      assert (a + b)[i] == a[i];
    }
    if EmptyPayloadIn(b) {
      var i :| 0 <= i < |b| && IsEmptyData(b[i]);
      assert (a + b)[|a| + i] == b[i];
    }
  }

  lemma Associate(a: seq<Message>, b: seq<Message>, c: seq<Message>)
    ensures (a + b) + c == a + (b + c)
  {
  }

  lemma NothingPending(delivered: bytes, data: bytes)
    ensures delivered + [] == delivered && [] + data == data
  {
  }

  /** The messages among the wakeups. */
  function Messages(wakeups: seq<Wakeup>): seq<Message> {
    if wakeups == [] then []
    else
      var last := wakeups[|wakeups| - 1];
      Messages(wakeups[..|wakeups| - 1]) + if last.Arrived? then [last.message] else []
  }

  // ----- Which wakeup ends a wait -----

  /** The wait goes on: a message without data that is not a close. */
  predicate Skipped(w: Wakeup) {
    w.Arrived? && !CarriesData(w.message) && w.message != Close
  }

  /** The wakeup that ends a wait; none when the stream is exhausted first. */
  function Decider(wakeups: seq<Wakeup>): Option<Wakeup> {
    if wakeups == [] then None
    else if Skipped(wakeups[0]) then Decider(wakeups[1..])
    else Some(wakeups[0])
  }

  /** The wakeups that a wait leaves. */
  function Left(wakeups: seq<Wakeup>): seq<Wakeup> {
    if wakeups == [] then []
    else if Skipped(wakeups[0]) then Left(wakeups[1..])
    else wakeups[1..]
  }

  /** The messages that a wait takes. */
  function Taken(wakeups: seq<Wakeup>): seq<Message> {
    if wakeups == [] then []
    else if Skipped(wakeups[0]) then [wakeups[0].message] + Taken(wakeups[1..])
    else if wakeups[0].Arrived? then [wakeups[0].message]
    else []
  }

  /** The input has ended: the stream, or a close. */
  predicate Ends(decider: Option<Wakeup>) {
    decider in {None, Some(StreamEnded), Some(Arrived(Close))}
  }

  function OutcomeOf(decider: Option<Wakeup>, room: nat): ReadOutcome {
    match decider
    case Some(CancellationSeen) => Cancelled
    case Some(InactivityDeadline) => TimedOut
    case Some(Arrived(m)) => Read(Min(room, |PayloadOf(m)|))
    case _ => Read(0)
  }

  /** The messages a wait takes before its last carry no data. */
  lemma {:induction false} EmptyPayloadTaken(wakeups: seq<Wakeup>)
    ensures EmptyPayloadIn(Taken(wakeups)) <==>
      Decider(wakeups).Some? && Decider(wakeups).value.Arrived? && IsEmptyData(Decider(wakeups).value.message)
  {
    if wakeups != [] {
      if Skipped(wakeups[0]) {
        EmptyPayloadTaken(wakeups[1..]);
        EmptyPayloadAppend([wakeups[0].message], Taken(wakeups[1..]));
        assert !IsEmptyData([wakeups[0].message][0]);
      } else if wakeups[0].Arrived? {
        assert Taken(wakeups)[0] == wakeups[0].message;
      }
    }
  }

  // ----- Which wakeup ends a whole copy -----

  /** Reading goes on after it: a message that is no close and no empty payload. */
  predicate Plain(w: Wakeup) {
    w.Arrived? && w.message != Close && !IsEmptyData(w.message)
  }

  /** The first wakeup that is not plain. */
  function Stopper(wakeups: seq<Wakeup>): Option<Wakeup> {
    if wakeups == [] then None
    else if Plain(wakeups[0]) then Stopper(wakeups[1..])
    else Some(wakeups[0])
  }

  /** The payload that arrives before the stopper. */
  function PayloadBefore(wakeups: seq<Wakeup>): bytes {
    if wakeups == [] || !Plain(wakeups[0]) then []
    else PayloadOf(wakeups[0].message) + PayloadBefore(wakeups[1..])
  }

  /** The wakeups behind the stopper. */
  function Beyond(wakeups: seq<Wakeup>): seq<Wakeup> {
    if wakeups == [] then []
    else if Plain(wakeups[0]) then Beyond(wakeups[1..])
    else wakeups[1..]
  }

  /** The pieces that reads into a buffer of `room` bytes make of a payload. */
  function Pieces(data: bytes, room: nat): seq<bytes>
    requires room > 0
    decreases |data|
  {
    if data == [] then []
    else
      var n := Min(room, |data|);
      [data[..n]] + Pieces(data[n..], room)
  }

  /** All pieces of what arrives before the stopper. */
  function PiecesBefore(wakeups: seq<Wakeup>, room: nat): seq<bytes>
    requires room > 0
  {
    if wakeups == [] || !Plain(wakeups[0]) then []
    else Pieces(PayloadOf(wakeups[0].message), room) + PiecesBefore(wakeups[1..], room)
  }

  function Joined(pieces: seq<bytes>): bytes {
    if pieces == [] then [] else pieces[0] + Joined(pieces[1..])
  }

  lemma {:induction false} JoinedAppend(a: seq<bytes>, b: seq<bytes>)
    ensures Joined(a + b) == Joined(a) + Joined(b)
    decreases |a|
  {
    if a == [] {
      assert a + b == b;
    } else {
      assert (a + b)[0] == a[0] && (a + b)[1..] == a[1..] + b;
      JoinedAppend(a[1..], b);
      AssociateBytes(a[0], Joined(a[1..]), Joined(b));
    }
  }

  lemma {:induction false} PiecesJoin(data: bytes, room: nat)
    requires room > 0
    ensures Joined(Pieces(data, room)) == data
    decreases |data|
  {
    if data != [] {
      var n := Min(room, |data|);
      PiecesJoin(data[n..], room);
      assert Pieces(data, room)[1..] == Pieces(data[n..], room);
      assert data[..n] + data[n..] == data;
    }
  }

  /** Nothing of the payload is lost or reordered by reading it in pieces. */
  lemma {:induction false} PiecesBeforeJoin(wakeups: seq<Wakeup>, room: nat)
    requires room > 0
    ensures Joined(PiecesBefore(wakeups, room)) == PayloadBefore(wakeups)
    decreases |wakeups|
  {
    if wakeups != [] && Plain(wakeups[0]) {
      var data := PayloadOf(wakeups[0].message);
      PiecesJoin(data, room);
      PiecesBeforeJoin(wakeups[1..], room);
      JoinedAppend(Pieces(data, room), PiecesBefore(wakeups[1..], room));
    }
  }

  /** What one wait contributes to the pieces. */
  lemma {:induction false} PiecesStep(wakeups: seq<Wakeup>, room: nat)
    requires room > 0
    ensures
      var d := Decider(wakeups);
      if d.Some? && Plain(d.value) then
        && PiecesBefore(wakeups, room) == Pieces(PayloadOf(d.value.message), room) + PiecesBefore(Left(wakeups), room)
        && Beyond(wakeups) == Beyond(Left(wakeups))
      else PiecesBefore(wakeups, room) == [] && Beyond(wakeups) == Left(wakeups)
    decreases |wakeups|
  {
    if wakeups != [] && Skipped(wakeups[0]) {
      PiecesStep(wakeups[1..], room);
      var rest := PiecesBefore(wakeups[1..], room);
      assert [] + rest == rest;
    }
  }

  /** A read hands out the first piece of what is pending. */
  lemma NextPiece(pending: bytes, piece: bytes, rest: bytes, room: nat)
    requires room > 0 && pending == piece + rest && piece != [] && |piece| == Min(room, |pending|)
    ensures Pieces(pending, room) == [piece] + Pieces(rest, room)
  {
    assert pending[..|piece|] == piece && pending[|piece|..] == rest;
  }

  /** What one wait contributes to a copy. */
  lemma {:induction false} CopyStep(consumed: seq<Message>, wakeups: seq<Wakeup>)
    ensures
      var d, after := Decider(wakeups), Payload(consumed + Taken(wakeups));
      if d.Some? && Plain(d.value) then
        && Stopper(wakeups) == Stopper(Left(wakeups))
        && after == Payload(consumed) + PayloadOf(d.value.message)
        && after + PayloadBefore(Left(wakeups)) == Payload(consumed) + PayloadBefore(wakeups)
      else
        && Stopper(wakeups) == d && PayloadBefore(wakeups) == [] && after == Payload(consumed)
    decreases |wakeups|
  {
    assert consumed + [] == consumed;
    if wakeups != [] {
      WaitStep(consumed, wakeups);
      if Skipped(wakeups[0]) {
        SkippedStep(consumed, wakeups);
        CopyStep(consumed + [wakeups[0].message], wakeups[1..]);
      } else if wakeups[0].Arrived? {
        DecidedStep(consumed, wakeups);
      }
    }
  }

  lemma SkippedStep(consumed: seq<Message>, wakeups: seq<Wakeup>)
    requires wakeups != [] && Skipped(wakeups[0])
    ensures Payload(consumed + [wakeups[0].message]) == Payload(consumed)
    ensures Stopper(wakeups) == Stopper(wakeups[1..]) && PayloadBefore(wakeups) == PayloadBefore(wakeups[1..])
  {
    MessagesSnoc(consumed, wakeups[0].message);
    NothingPending(Payload(consumed), PayloadBefore(wakeups[1..]));
  }

  lemma DecidedStep(consumed: seq<Message>, wakeups: seq<Wakeup>)
    requires wakeups != [] && wakeups[0].Arrived? && !Skipped(wakeups[0])
    ensures
      var after := Payload(consumed + [wakeups[0].message]);
      if Plain(wakeups[0]) then
        && after == Payload(consumed) + PayloadOf(wakeups[0].message)
        && after + PayloadBefore(wakeups[1..]) == Payload(consumed) + PayloadBefore(wakeups)
      else after == Payload(consumed)
  {
    var m := wakeups[0].message;
    MessagesSnoc(consumed, m);
    NothingPending(Payload(consumed), []);
    AssociateBytes(Payload(consumed), PayloadOf(m), PayloadBefore(wakeups[1..]));
  }

  lemma AssociateBytes(a: bytes, b: bytes, c: bytes)
    ensures (a + b) + c == a + (b + c)
  {
  }

  datatype ReadAction = Deliver(data: bytes) | Continue | Finished

  /** `Cancelled` is `Ok(None)`, `Read(0)` the end of input. */
  datatype ReadOutcome = Read(count: nat) | Cancelled | TimedOut

  predicate LastIsClose(messages: seq<Message>) {
    messages != [] && messages[|messages| - 1] == Close
  }

  predicate OnlyLastIsClose(messages: seq<Message>) {
    forall i :: 0 <= i < |messages| - 1 ==> messages[i] != Close
  }

  /** A message taken when nothing is pending leaves its own payload pending. */
  lemma TakeKeeps(consumed: seq<Message>, m: Message, delivered: bytes, pending: bytes)
    requires pending == [] && delivered + pending == Payload(consumed)
    ensures delivered + PayloadOf(m) == Payload(consumed + [m]) && pending + PayloadOf(m) == PayloadOf(m)
    ensures LastIsClose(consumed + [m]) <==> m == Close
    ensures OnlyLastIsClose(consumed) && !LastIsClose(consumed) ==> OnlyLastIsClose(consumed + [m])
  {
    MessagesSnoc(consumed, m);
    NothingPending(delivered, PayloadOf(m));
  }

  class Reader {
    var wakeups: seq<Wakeup>
    var pending: bytes
    var result: SessionResult
    var finished: bool
    /** Messages taken from the channel, bytes handed to callers, and whether the stream was seen to end. */
    ghost var consumed: seq<Message>
    ghost var delivered: bytes
    ghost var streamEnded: bool
    /** All wakeups there will ever be, and those that were taken. */
    ghost const all: seq<Wakeup>
    ghost var history: seq<Wakeup>

    constructor (wakeups: seq<Wakeup>)
      ensures Valid() && Honest() && this.wakeups == all == wakeups
      ensures consumed == [] && delivered == [] && pending == [] && !finished
    {
      this.wakeups, pending, result, finished := wakeups, [], NO_RESULT, false;
      consumed, delivered, streamEnded, all, history := [], [], false, wakeups, [];
    }

    /** What was taken is what was there, in order; the stream has ended only if it was seen to. */
    ghost predicate Honest()
      reads this
    {
      && all == history + wakeups && consumed == Messages(history)
      && (streamEnded ==> wakeups == [] || (history != [] && history[|history| - 1] == StreamEnded))
    }

    /**
     * Nothing is lost, duplicated or reordered, the result is the last that
     * was seen, and the reader has finished exactly when the input has ended.
     */
    ghost predicate Valid()
      reads this
    {
      && (finished <==> streamEnded || LastIsClose(consumed))
      && delivered + pending == Payload(consumed)
      && result == ResultOf(consumed)
      && OnlyLastIsClose(consumed)
    }

    method FillFromPending(buffer: array<byte>) returns (count: nat)
      requires Valid()
      modifies this`pending, this`delivered, buffer
      ensures Valid() && count == Min(buffer.Length, |old(pending)|)
      ensures buffer[..count] == old(pending)[..count]
      ensures pending == old(pending)[count..]
      ensures forall k :: count <= k < buffer.Length ==> buffer[k] == old(buffer[k])
      ensures delivered == old(delivered) + buffer[..count]
    {
      count := Min(buffer.Length, |pending|);
      ghost var start := pending;
      for i := 0 to count
        invariant pending == start[i..] && delivered == old(delivered)
        invariant forall k :: 0 <= k < i ==> buffer[k] == start[k]
        invariant forall k :: i <= k < buffer.Length ==> buffer[k] == old(buffer[k])
      {
        buffer[i] := pending[0];
        pending := pending[1..];
      }
      assert buffer[..count] == start[..count];
      assert delivered + start == (delivered + start[..count]) + start[count..];
      delivered := delivered + buffer[..count];
    }

    method ApplyMessage(message: Message) returns (action: ReadAction)
      modifies this`result
      ensures result == match message
                        case ExitStatus(status) => old(result).(exitStatus := Some(status))
                        case Signal(signal) => old(result).(exitSignal := Some(signal))
                        case _ => old(result)
      ensures action == if CarriesData(message) then Deliver(PayloadOf(message))
                        else if message == Close then Finished else Continue
    {
      match message {
        case Data(data) => action := Deliver(data);
        case ExtendedData(_, data) => action := Deliver(data);
        case ExitStatus(status) =>
          result := result.(exitStatus := Some(status));
          action := Continue;
        case Signal(signal) =>
          result := result.(exitSignal := Some(signal));
          action := Continue;
        case Close => action := Finished;
        case Eof => action := Continue;
        case Other => action := Continue;
      }
    }

    /** Takes one message from the channel into the state. */
    method Take(message: Message) returns (action: ReadAction)
      requires Valid() && !finished && pending == []
      modifies this`result, this`consumed, this`pending, this`finished
      ensures Valid() && consumed == old(consumed) + [message]
      ensures delivered == old(delivered) && pending == PayloadOf(message)
      ensures CarriesData(message) <==> action.Deliver?
      ensures finished <==> action.Finished?
      ensures finished <==> message == Close
    {
      MessagesSnoc(consumed, message);
      TakeKeeps(consumed, message, delivered, pending);
      action := ApplyMessage(message);
      consumed := consumed + [message];
      if action.Deliver? {
        pending := pending + action.data;
      } else if action == Finished {
        finished := true;
      }
    }

    /** Folds one message in; `Some(n)` ends the read with `n` bytes. */
    method Handle(message: Message, buffer: array<byte>) returns (count: Option<nat>)
      requires Valid() && !finished && pending == [] && buffer.Length > 0
      modifies this`result, this`consumed, this`pending, this`finished, this`delivered, buffer
      ensures Valid() && consumed == old(consumed) + [message]
      ensures count.None? ==>
        !finished && pending == [] && delivered == old(delivered) && buffer[..] == old(buffer[..])
      ensures count == if CarriesData(message) then Some(Min(buffer.Length, |PayloadOf(message)|))
                       else if message == Close then Some(0) else None
      ensures count.Some? ==>
        count.value <= buffer.Length && delivered == old(delivered) + buffer[..count.value]
      ensures count == Some(0) ==> pending == []
      ensures finished <==> message == Close
    {
      var action := Take(message);
      match action {
        case Deliver(_) =>
          var n := FillFromPending(buffer);
          count := Some(n);
        case Finished =>
          assert buffer[..0] == [];
          count := Some(0);
        case Continue => count := None;
      }
    }

    /** A wait hands out the bytes that it says; unless there are some, nothing stays pending. */
    twostate predicate Delivered(outcome: ReadOutcome, buffer: array<byte>)
      reads this, buffer
    {
      && (outcome.Read? ==>
            outcome.count <= buffer.Length && delivered == old(delivered) + buffer[..outcome.count])
      && (!outcome.Read? ==> delivered == old(delivered))
      && (!outcome.Read? || outcome.count == 0 ==> pending == [])
    }

    method Pop() returns (wakeup: Wakeup)
      requires wakeups != [] && all == history + wakeups
      modifies this`wakeups, this`history
      ensures wakeup == old(wakeups)[0] && wakeups == old(wakeups)[1..]
      ensures all == history + wakeups && history == old(history) + [wakeup]
    {
      wakeup := wakeups[0];
      wakeups := wakeups[1..];
      history := history + [wakeup];
    }

    /** One wakeup; `None` when the wait goes on. */
    method OneWakeup(buffer: array<byte>) returns (outcome: Option<ReadOutcome>)
      requires Valid() && Honest() && pending == [] && !finished && buffer.Length > 0 && wakeups != []
      modifies this, buffer
      ensures Valid() && Honest() && wakeups == old(wakeups)[1..]
      ensures consumed == old(consumed) + if old(wakeups)[0].Arrived? then [old(wakeups)[0].message] else []
      ensures outcome == if Skipped(old(wakeups)[0]) then None
                         else Some(OutcomeOf(Some(old(wakeups)[0]), buffer.Length))
      ensures finished <==> Ends(Some(old(wakeups)[0]))
      ensures outcome.None? ==> delivered == old(delivered) && pending == []
      ensures outcome.Some? ==> Delivered(outcome.value, buffer)
      ensures outcome.None? || !outcome.value.Read? ==> buffer[..] == old(buffer[..])
    {
      HistorySnoc(history, wakeups[0]);
      var wakeup := Pop();
      assert buffer[..0] == [];
      match wakeup {
        case CancellationSeen => return Some(Cancelled);
        case InactivityDeadline => return Some(TimedOut);
        case StreamEnded =>
          finished, streamEnded := true, true;
          return Some(Read(0));
        case Arrived(message) =>
          var count := Handle(message, buffer);
          outcome := if count.Some? then Some(Read(count.value)) else None;
      }
    }

    /** Waits until a payload arrives, input ends, or the wait is given up: what its decider says happens. */
    method Receive(buffer: array<byte>) returns (outcome: ReadOutcome)
      requires Valid() && Honest() && pending == [] && !finished && buffer.Length > 0
      modifies this, buffer
      ensures Valid() && Honest()
      ensures outcome == OutcomeOf(Decider(old(wakeups)), buffer.Length)
      ensures finished <==> Ends(Decider(old(wakeups)))
      ensures wakeups == Left(old(wakeups)) && consumed == old(consumed) + Taken(old(wakeups))
      ensures Delivered(outcome, buffer)
      ensures !outcome.Read? ==> buffer[..] == old(buffer[..])
    {
      ghost var decider, left, taken := Decider(wakeups), Left(wakeups), consumed + Taken(wakeups);
      while wakeups != []
        invariant Valid() && Honest() && !finished && pending == [] && delivered == old(delivered)
        invariant buffer[..] == old(buffer[..])
        invariant Decider(wakeups) == decider && Left(wakeups) == left && consumed + Taken(wakeups) == taken
        decreases |wakeups|
      {
        WaitStep(consumed, wakeups);
        var step := OneWakeup(buffer);
        if step.Some? {
          return step.value;
        }
      }
      outcome := EndOfStream(buffer);
    }

    method EndOfStream(buffer: array<byte>) returns (outcome: ReadOutcome)
      requires Valid() && Honest() && pending == [] && wakeups == []
      modifies this`finished, this`streamEnded
      ensures Valid() && Honest() && finished && outcome == Read(0) && Delivered(outcome, buffer)
    {
      assert buffer[..0] == [];
      finished, streamEnded := true, true;
      return Read(0);
    }

    /**
     * One read. Pending bytes are handed out first, and after the end there
     * are no more. Otherwise the first wakeup that carries data, ends the
     * input, cancels or times out decides what the read returns, whether the
     * reader has finished and which messages were taken.
     */
    method ReadCancellable(buffer: array<byte>) returns (outcome: ReadOutcome)
      requires Valid() && Honest()
      modifies this, buffer
      ensures Valid() && Honest()
      ensures old(Waits(buffer.Length)) ==>
        && outcome == OutcomeOf(Decider(old(wakeups)), buffer.Length)
        && (finished <==> Ends(Decider(old(wakeups))))
        && wakeups == Left(old(wakeups)) && consumed == old(consumed) + Taken(old(wakeups))
        && (outcome == Read(0) ==> pending == [])
      ensures !old(Waits(buffer.Length)) ==>
        && outcome == Read(Min(buffer.Length, |old(pending)|))
        && finished == old(finished) && wakeups == old(wakeups) && consumed == old(consumed)
      ensures outcome.Read? ==>
        outcome.count <= buffer.Length && delivered == old(delivered) + buffer[..outcome.count]
      ensures !outcome.Read? ==>
        delivered == old(delivered) && pending == old(pending) == [] && buffer[..] == old(buffer[..])
    {
      assert buffer[..0] == [];
      if buffer.Length == 0 {
        return Read(0);
      }
      var count := FillFromPending(buffer);
      if count > 0 {
        return Read(count);
      }
      if finished {
        return Read(0);
      }
      outcome := Receive(buffer);
    }

    /** A read has to wait for the channel. */
    predicate Waits(room: nat)
      reads this
    {
      room > 0 && pending == [] && !finished
    }
  }

  /** What one wakeup contributes to a wait. */
  lemma WaitStep(consumed: seq<Message>, wakeups: seq<Wakeup>)
    requires wakeups != []
    ensures
      var w, rest := wakeups[0], wakeups[1..];
      if Skipped(w) then
        && Decider(wakeups) == Decider(rest) && Left(wakeups) == Left(rest)
        && consumed + Taken(wakeups) == (consumed + [w.message]) + Taken(rest)
      else
        && Decider(wakeups) == Some(w) && Left(wakeups) == rest
        && Taken(wakeups) == if w.Arrived? then [w.message] else []
  {
    if Skipped(wakeups[0]) {
      Associate(consumed, [wakeups[0].message], Taken(wakeups[1..]));
    }
  }

  lemma HistorySnoc(history: seq<Wakeup>, w: Wakeup)
    ensures Messages(history + [w]) == Messages(history) + if w.Arrived? then [w.message] else []
  {
    assert (history + [w])[..|history|] == history;
  }

  /**
   * What a waiting read of zero bytes means: the input has ended if and only
   * if the read met no empty payload, and nothing else reads as zero.
   */
  lemma {:induction false} ZeroReadMeans(wakeups: seq<Wakeup>, room: nat)
    requires room > 0
    ensures
      var d := Decider(wakeups);
      && (OutcomeOf(d, room) == Read(0) <==> Ends(d) || EmptyPayloadIn(Taken(wakeups)))
      && !(Ends(d) && EmptyPayloadIn(Taken(wakeups)))
  {
    EmptyPayloadTaken(wakeups);
    DeciderIsNotSkipped(wakeups);
  }

  lemma {:induction false} DeciderIsNotSkipped(wakeups: seq<Wakeup>)
    ensures Decider(wakeups).Some? ==> !Skipped(Decider(wakeups).value)
  {
    if wakeups != [] && Skipped(wakeups[0]) {
      DeciderIsNotSkipped(wakeups[1..]);
    }
  }

  /** The smallest case: one empty payload, and the first read says that input has ended when it has not. */
  method EmptyPayloadLooksLikeTheEnd() returns (outcome: ReadOutcome, finished: bool)
    ensures outcome == Read(0) && !finished
  {
    var wakeups := [Arrived(Data([]))];
    var reader := new Reader(wakeups);
    var buffer := new byte[1];
    outcome := reader.ReadCancellable(buffer);
    finished := reader.finished;
  }

  // ----- What the other end sent -----

  /** Each message carries its part of the sent bytes, as data or as extended data, or carries none. */
  predicate Carry(messages: seq<Message>, parts: seq<bytes>) {
    |messages| == |parts| && forall i :: 0 <= i < |messages| ==> Carries(messages[i], parts[i])
  }

  predicate Carries(m: Message, part: bytes) {
    match m
    case Data(data) => data == part
    case ExtendedData(_, data) => data == part
    case _ => part == []
  }

  /**
   * Sent bytes are read back in full and in order, however they are cut into
   * messages of either kind and whatever other messages come between.
   */
  lemma {:induction false} EveryCutIsReadBack(messages: seq<Message>, parts: seq<bytes>)
    requires Carry(messages, parts)
    ensures Payload(messages) == Joined(parts)
  {
    if messages != [] {
      var n := |messages| - 1;
      EveryCutIsReadBack(messages[..n], parts[..n]);
      assert parts == parts[..n] + [parts[n]];
      JoinedAppend(parts[..n], [parts[n]]);
      JoinedOne(parts[n]);
      assert Carries(messages[n], parts[n]);
    }
  }

  lemma JoinedOne(part: bytes)
    ensures Joined([part]) == part
  {
    assert [part][1..] == [];
    assert part + [] == part;
  }

  /** Nothing of that kind comes later. */
  predicate LastStatusAt(messages: seq<Message>, i: nat) {
    i < |messages| && messages[i].ExitStatus? && forall k :: i < k < |messages| ==> !messages[k].ExitStatus?
  }

  predicate LastSignalAt(messages: seq<Message>, i: nat) {
    i < |messages| && messages[i].Signal? && forall k :: i < k < |messages| ==> !messages[k].Signal?
  }

  lemma {:induction false} StatusIsKept(messages: seq<Message>, i: nat)
    requires LastStatusAt(messages, i)
    ensures ResultOf(messages).exitStatus == Some(messages[i].status)
  {
    var n := |messages| - 1;
    if i < n {
      assert messages[..n][i] == messages[i];
      StatusIsKept(messages[..n], i);
    }
  }

  lemma {:induction false} KeptStatusWasLast(messages: seq<Message>) returns (i: nat)
    requires ResultOf(messages).exitStatus.Some?
    ensures LastStatusAt(messages, i)
  {
    i := |messages| - 1;
    if !messages[i].ExitStatus? {
      i := KeptStatusWasLast(messages[..i]);
    }
  }

  lemma {:induction false} SignalIsKept(messages: seq<Message>, i: nat)
    requires LastSignalAt(messages, i)
    ensures ResultOf(messages).exitSignal == Some(messages[i].signal)
  {
    var n := |messages| - 1;
    if i < n {
      assert messages[..n][i] == messages[i];
      SignalIsKept(messages[..n], i);
    }
  }

  lemma {:induction false} KeptSignalWasLast(messages: seq<Message>) returns (i: nat)
    requires ResultOf(messages).exitSignal.Some?
    ensures LastSignalAt(messages, i)
  {
    i := |messages| - 1;
    if !messages[i].Signal? {
      i := KeptSignalWasLast(messages[..i]);
    }
  }

  /** The result holds the last exit status and the last exit signal, and none where none was sent. */
  lemma LastResultIsKept(messages: seq<Message>, status: nat, signal: ExitSignal)
    ensures ResultOf(messages).exitStatus == Some(status) <==>
      exists i: nat :: LastStatusAt(messages, i) && messages[i].status == status
    ensures ResultOf(messages).exitSignal == Some(signal) <==>
      exists i: nat :: LastSignalAt(messages, i) && messages[i].signal == signal
  {
    if ResultOf(messages).exitStatus == Some(status) {
      var i := KeptStatusWasLast(messages);
      StatusIsKept(messages, i);
    }
    if i: nat :| LastStatusAt(messages, i) && messages[i].status == status {
      StatusIsKept(messages, i);
    }
    LastSignalIsKept(messages, signal);
  }

  lemma LastSignalIsKept(messages: seq<Message>, signal: ExitSignal)
    ensures ResultOf(messages).exitSignal == Some(signal) <==>
      exists i: nat :: LastSignalAt(messages, i) && messages[i].signal == signal
  {
    if ResultOf(messages).exitSignal == Some(signal) {
      var i := KeptSignalWasLast(messages);
      SignalIsKept(messages, i);
    }
    if i: nat :| LastSignalAt(messages, i) && messages[i].signal == signal {
      SignalIsKept(messages, i);
    }
  }

  // ----- What a wait comes to -----

  /** Messages over which a wait goes on. */
  predicate Quiet(m: Message) {
    m.ExitStatus? || m.Signal? || m.Eof? || m.Other?
  }

  function Arrivals(messages: seq<Message>): (wakeups: seq<Wakeup>)
    ensures |wakeups| == |messages| && forall i :: 0 <= i < |wakeups| ==> wakeups[i] == Arrived(messages[i])
  {
    seq(|messages|, i requires 0 <= i < |messages| => Arrived(messages[i]))
  }

  lemma {:induction false} QuietArePassed(quiet: seq<Message>, rest: seq<Wakeup>)
    requires forall i :: 0 <= i < |quiet| ==> Quiet(quiet[i])
    ensures Decider(Arrivals(quiet) + rest) == Decider(rest) && Left(Arrivals(quiet) + rest) == Left(rest)
    ensures Taken(Arrivals(quiet) + rest) == quiet + Taken(rest)
  {
    var wakeups := Arrivals(quiet) + rest;
    if quiet == [] {
      assert wakeups == rest && quiet + Taken(rest) == Taken(rest);
    } else {
      assert wakeups[0] == Arrived(quiet[0]);
      assert wakeups[1..] == Arrivals(quiet[1..]) + rest;
      QuietArePassed(quiet[1..], rest);
      Associate([quiet[0]], quiet[1..], Taken(rest));
      assert [quiet[0]] + quiet[1..] == quiet;
    }
  }

  /**
   * A wait passes over statuses, signals, ends of file and other messages.
   * Data of either kind are handed out as far as there is room, a close or the
   * end of the stream reads as nothing, a cancellation and a passed deadline
   * give the wait up; what comes later is left alone.
   */
  lemma WaitComesTo(quiet: seq<Message>, w: Wakeup, rest: seq<Wakeup>, room: nat)
    requires forall i :: 0 <= i < |quiet| ==> Quiet(quiet[i])
    requires w.Arrived? ==> !Quiet(w.message)
    ensures
      var wakeups := Arrivals(quiet) + ([w] + rest);
      && Left(wakeups) == rest && Taken(wakeups) == quiet + (if w.Arrived? then [w.message] else [])
      && Decider(wakeups) == Some(w)
      && OutcomeOf(Decider(wakeups), room) ==
           match w
           case Arrived(Data(data)) => Read(Min(room, |data|))
           case Arrived(ExtendedData(_, data)) => Read(Min(room, |data|))
           case CancellationSeen => Cancelled
           case InactivityDeadline => TimedOut
           case _ => Read(0)
    ensures
      var all := Arrivals(quiet);
      Decider(all) == None && Left(all) == [] && Taken(all) == quiet && OutcomeOf(None, room) == Read(0)
  {
    QuietArePassed(quiet, [w] + rest);
    QuietArePassed(quiet, []);
    assert ([w] + rest)[1..] == rest;
    assert Arrivals(quiet) + [] == Arrivals(quiet) && quiet + [] == quiet;
  }
}
