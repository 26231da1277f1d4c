/**
 * A source session and a sink session joined by two byte queues, under any
 * scheduler. The pair never deadlocks, every run is finite, and both ends
 * succeed exactly when the tree is transferable; the target then holds
 * exactly that tree.
 */
module ScpTransfer {
  import opened Common
  import opened ScpText
  import opened ScpSink
  import opened ScpWire
  import opened ScpSource
  import opened ScpReceipt

  datatype Status = Running | Succeeded | Failed

  /** Either side sends this when it gives up: a 2, "SCP request rejected by hermetic fixture" and a newline. */
  const FATAL: bytes := [
    2, 83, 67, 80, 32, 114, 101, 113, 117, 101, 115, 116, 32, 114,
    101, 106, 101, 99, 116, 101, 100, 32, 98, 121, 32, 104, 101, 114,
    109, 101, 116, 105, 99, 32, 102, 105, 120, 116, 117, 114, 101, 10
  ]

  /**
   * `next` is the source's position in its script, `read` what the sink has
   * consumed so far; the two queues hold what is under way. `late` says that
   * one side has given up waiting.
   */
  datatype Net = Net(
    next: nat, source: Status, toSink: bytes,
    read: bytes, sink: Sink, sinkStatus: Status, toSource: bytes, late: bool)

  function Initial(s0: Sink): Net {
    Net(0, Running, [], [], s0, Running, [0], false)
  }

  predicate Expects(n: Net, script: Script) {
    n.next < |script| && script[n.next].Expect?
  }

  predicate SourceEnabled(n: Net, script: Script) {
    n.source.Running? && (Expects(n, script) ==> n.toSource != [] || !n.sinkStatus.Running?)
  }

  function SourceFails(n: Net): Net {
    n.(source := Failed, toSink := n.toSink + FATAL)
  }

  function SourceStep(n: Net, script: Script): Net {
    if n.next >= |script| then n.(source := Succeeded)
    else
      match script[n.next]
      case Abort => SourceFails(n)
      case Send(data) => n.(next := n.next + 1, toSink := n.toSink + data)
      case Expect =>
        if n.toSource == [] || n.toSource[0] != 0 then SourceFails(n)
        else n.(next := n.next + 1, toSource := n.toSource[1..])
  }

  /** The sink reads a byte, or sees the end of input once the source has stopped. */
  predicate SinkEnabled(n: Net) {
    n.sinkStatus.Running? && (n.toSink != [] || !n.source.Running?)
  }

  function SinkFails(n: Net): Net {
    n.(sinkStatus := Failed, toSource := n.toSource + FATAL)
  }

  function SinkReads(n: Net): Net
    requires n.toSink != [] && n.sink.dirs != []
  {
    var s' := Step(n.sink, n.toSink[0]);
    n.(toSink := n.toSink[1..], read := n.read + [n.toSink[0]], sink := s',
       toSource := n.toSource + Zeros(Max(0, s'.acks - n.sink.acks)))
  }

  function SinkStep(n: Net): (r: Net)
    requires n.sink.dirs != []
    ensures r.sink.dirs != []
  {
    if n.toSink == [] then
      if Completed(n.sink) then n.(sinkStatus := Succeeded) else SinkFails(n)
    else
      StackNeverEmpty(n.sink, n.toSink[0]);
      var r := SinkReads(n);
      if r.sink.phase.Rejected? then SinkFails(r) else r
  }

  /** Each side waits for at most two seconds: the deadline may pass whenever nothing has arrived. */
  datatype Move = SourceMoves | SinkMoves | SourceTimesOut | SinkTimesOut

  predicate Enabled(n: Net, script: Script, move: Move) {
    match move
    case SourceMoves => SourceEnabled(n, script)
    case SinkMoves => SinkEnabled(n)
    case SourceTimesOut => n.source.Running? && Expects(n, script) && n.toSource == []
    case SinkTimesOut => n.sinkStatus.Running? && n.source.Running? && n.toSink == []
  }

  function Apply(n: Net, script: Script, move: Move): (r: Net)
    requires n.sink.dirs != []
    ensures r.sink.dirs != []
  {
    if !Enabled(n, script, move) then n
    else
      match move
      case SourceMoves => SourceStep(n, script)
      case SinkMoves => SinkStep(n)
      case SourceTimesOut => SourceFails(n).(late := true)
      case SinkTimesOut => SinkFails(n).(late := true)
  }

  /** Lets the sides move in the given order; a move that is not possible is skipped. */
  function Run(n: Net, script: Script, moves: seq<Move>): (r: Net)
    requires n.sink.dirs != []
    ensures r.sink.dirs != []
    decreases |moves|
  {
    if moves == [] then n else Run(Apply(n, script, moves[0]), script, moves[1..])
  }

  predicate Finished(n: Net) {
    !n.source.Running? && !n.sinkStatus.Running?
  }

  // ----- A fatal message never completes a sink -----

  /** Outside control lines a sink goes on only with a zero byte. */
  lemma {:induction false} NoZeroNoLine(s: Sink, input: bytes)
    requires s.dirs != [] && !s.phase.ReadingLine? && 0 !in input
    ensures !Feed(s, input).phase.ReadingLine?
    decreases |input|
  {
    if input != [] {
      assert input[0] in input;
      NoZeroNoLine(Step(s, input[0]), input[1..]);
    }
  }

  lemma FatalIsNotZero()
    ensures 0 !in FATAL && FATAL != [] && FATAL[0] == 2 && IsLine(FATAL)
  {
    assert forall i :: 0 <= i < |FATAL| - 1 ==> FATAL[i] != 0 && FATAL[i] != NEWLINE;
    assert FATAL[|FATAL| - 1] == NEWLINE;
  }

  /** Where a source gives up, its message is taken for a record or for data, and never ends a run well. */
  lemma FatalNeverCompletes(s: Sink)
    requires s.dirs != [] && Settled(s)
    ensures !Completed(Feed(s, FATAL))
  {
    FatalIsNotZero();
    NeverCompletes(s, FATAL);
  }

  lemma NeverCompletes(s: Sink, message: bytes)
    requires s.dirs != [] && Settled(s)
    requires 0 !in message && IsLine(message) && message[0] == 2
    ensures !Completed(Feed(s, message))
  {
    if s.phase.ReadingLine? {
      FeedOneLine(s, message, []);
    } else {
      NoZeroNoLine(s, message);
    }
  }

  // ----- The invariant of every run -----

  /** What the source has sent and the sink has not read yet follows what it has read. */
  ghost predicate InputInv(n: Net, script: Script, s0: Sink)
    requires s0.dirs != []
  {
    && n.next <= |script| && Abort !in script[..n.next]
    && n.sink == Feed(s0, n.read)
    && (n.source.Succeeded? ==> n.next == |script|)
    && (!n.source.Failed? ==> n.read + n.toSink == Sent(script[..n.next]))
    && (n.source.Failed? ==>
          && Settled(After(s0, script[..n.next]))
          && n.read + n.toSink == Sent(script[..n.next]) + FATAL)
  }

  /** Until the source fails it has had no acknowledgement that the sink has not sent. */
  ghost predicate AckInv(n: Net, script: Script)
    requires n.next <= |script|
  {
    !n.source.Failed? ==>
      && n.sink.acks >= Awaits(script[..n.next])
      && n.toSource == Zeros(n.sink.acks - Awaits(script[..n.next])) + if n.sinkStatus.Failed? then FATAL else []
  }

  /** Why a side has stopped. */
  ghost predicate EndInv(n: Net, script: Script) {
    && (n.sinkStatus.Running? ==> !n.sink.phase.Rejected?)
    && (n.sinkStatus.Succeeded? ==> Completed(n.sink) && n.toSink == [] && n.source.Succeeded?)
    && (n.sinkStatus.Failed? ==>
          n.late || n.sink.phase.Rejected? || (n.toSink == [] && !n.source.Running? && !Completed(n.sink)))
    && (n.source.Failed? ==> n.late || n.sinkStatus.Failed? || Abort in script)
  }

  ghost predicate Inv(n: Net, script: Script, s0: Sink)
    requires s0.dirs != []
  {
    InputInv(n, script, s0) && AckInv(n, script) && EndInv(n, script)
  }

  lemma SentNext(script: Script, k: nat)
    requires k < |script|
    ensures script[..k + 1] == script[..k] + [script[k]]
    ensures Sent(script[..k + 1]) == Sent(script[..k]) + Sent([script[k]])
    ensures Awaits(script[..k + 1]) == Awaits(script[..k]) + (if script[k].Expect? then 1 else 0)
    ensures Sent([script[k]]) == if script[k].Send? then script[k].data else []
  {
    assert script[..k + 1] == script[..k] + [script[k]];
    SentAppend(script[..k], [script[k]]);
  }

  /** Where the source may give up: at an abort or an awaited acknowledgement. */
  lemma FailKeepsInv(n: Net, script: Script, s0: Sink, late: bool)
    requires s0.dirs != [] && Inv(n, script, s0) && Paced(script, s0, 1) && n.source.Running?
    requires n.next < |script| && (script[n.next].Abort? || script[n.next].Expect?)
    requires script[n.next].Abort? || n.sinkStatus.Failed? || late
    ensures Inv(SourceFails(n).(late := n.late || late), script, s0)
  {
    FailKeepsInput(n, script, s0, late);
    assert script[n.next] in script;
  }

  lemma FailKeepsInput(n: Net, script: Script, s0: Sink, late: bool)
    requires s0.dirs != [] && InputInv(n, script, s0) && Paced(script, s0, 1) && n.source.Running?
    requires n.next < |script| && (script[n.next].Abort? || script[n.next].Expect?)
    ensures InputInv(SourceFails(n).(late := n.late || late), script, s0)
  {
    PacedAt(script, s0, 1, n.next);
    assert n.read + (n.toSink + FATAL) == (n.read + n.toSink) + FATAL;
  }

  lemma SendKeepsInv(n: Net, script: Script, s0: Sink, data: bytes)
    requires s0.dirs != [] && Inv(n, script, s0) && n.source.Running?
    requires n.next < |script| && script[n.next] == Send(data)
    ensures Inv(n.(next := n.next + 1, toSink := n.toSink + data), script, s0)
  {
    SentNext(script, n.next);
    assert n.read + (n.toSink + data) == (n.read + n.toSink) + data;
  }

  lemma ZerosTail(k: nat, tail: bytes)
    requires k > 0
    ensures (Zeros(k) + tail)[0] == 0 && (Zeros(k) + tail)[1..] == Zeros(k - 1) + tail
  {
  }

  /** What an awaiting source finds: a zero byte, the message of a failed sink, or nothing. */
  lemma NextAnswer(n: Net, script: Script)
    requires n.next <= |script| && AckInv(n, script) && !n.source.Failed?
    ensures n.toSource != [] && n.toSource[0] == 0 ==>
      && n.sink.acks > Awaits(script[..n.next])
      && n.toSource[1..]
         == Zeros(n.sink.acks - Awaits(script[..n.next]) - 1) + (if n.sinkStatus.Failed? then FATAL else [])
    ensures n.toSource != [] && n.toSource[0] != 0 ==> n.sinkStatus.Failed?
  {
    var k := n.sink.acks - Awaits(script[..n.next]);
    if k > 0 {
      ZerosTail(k, if n.sinkStatus.Failed? then FATAL else []);
    } else {
      FatalIsNotZero();
      assert Zeros(0) == [];
    }
  }

  lemma ExpectKeepsInv(n: Net, script: Script, s0: Sink)
    requires s0.dirs != [] && Inv(n, script, s0) && Paced(script, s0, 1) && SourceEnabled(n, script)
    requires n.next < |script| && script[n.next] == Expect
    ensures Inv(SourceStep(n, script), script, s0)
  {
    NextAnswer(n, script);
    if n.toSource == [] || n.toSource[0] != 0 {
      FailKeepsInv(n, script, s0, false);
    } else {
      SentNext(script, n.next);
      assert Sent(script[..n.next]) + [] == Sent(script[..n.next]);
    }
  }

  lemma SourceKeepsInv(n: Net, script: Script, s0: Sink)
    requires s0.dirs != [] && Inv(n, script, s0) && Paced(script, s0, 1) && SourceEnabled(n, script)
    ensures Inv(SourceStep(n, script), script, s0)
  {
    if n.next < |script| {
      match script[n.next]
      case Abort => FailKeepsInv(n, script, s0, false);
      case Send(data) => SendKeepsInv(n, script, s0, data);
      case Expect => ExpectKeepsInv(n, script, s0);
    }
  }

  lemma StepAcks(s: Sink, b: byte)
    requires s.dirs != []
    ensures s.acks <= Step(s, b).acks <= s.acks + 1
  {
  }

  lemma {:induction false} FeedAcks(s: Sink, input: bytes)
    requires s.dirs != []
    ensures s.acks <= Feed(s, input).acks
    decreases |input|
  {
    if input != [] {
      StepAcks(s, input[0]);
      FeedAcks(Step(s, input[0]), input[1..]);
    }
  }

  lemma MoreZeros(toSource: bytes, k: nat, more: nat)
    requires toSource == Zeros(k)
    ensures toSource + Zeros(more) == Zeros(k + more)
  {
  }

  lemma ReadKeepsInv(n: Net, script: Script, s0: Sink)
    requires s0.dirs != [] && n.sink.dirs != [] && Inv(n, script, s0) && SinkEnabled(n) && n.toSink != []
    ensures Inv(SinkStep(n), script, s0)
  {
    StepAcks(n.sink, n.toSink[0]);
    ReadKeepsInput(n, script, s0);
    ReadKeepsAcks(n, script);
  }

  lemma ReadKeepsInput(n: Net, script: Script, s0: Sink)
    requires s0.dirs != [] && n.sink.dirs != [] && InputInv(n, script, s0) && n.toSink != []
    ensures InputInv(SinkStep(n), script, s0)
  {
    FeedSnoc(s0, n.read, n.toSink[0]);
    HeadMoves(n.read, n.toSink);
    assert InputInv(SinkReads(n), script, s0);
  }

  lemma HeadMoves(read: bytes, toSink: bytes)
    requires toSink != []
    ensures (read + [toSink[0]]) + toSink[1..] == read + toSink
  {
  }

  lemma ReadKeepsAcks(n: Net, script: Script)
    requires n.sink.dirs != [] && n.next <= |script| && AckInv(n, script)
    requires n.toSink != [] && n.sinkStatus.Running?
    ensures AckInv(SinkStep(n), script)
  {
    StepAcks(n.sink, n.toSink[0]);
    MoreAcks(n, SinkReads(n), script, Step(n.sink, n.toSink[0]).acks - n.sink.acks);
  }

  lemma MoreAcks(n: Net, r: Net, script: Script, more: nat)
    requires n.next <= |script| && AckInv(n, script) && n.sinkStatus.Running?
    requires r.next == n.next && r.source == n.source && r.sinkStatus == n.sinkStatus
    requires r.sink.acks == n.sink.acks + more && r.toSource == n.toSource + Zeros(more)
    ensures AckInv(r, script) && AckInv(SinkFails(r), script)
  {
    if !n.source.Failed? {
      var k := n.sink.acks - Awaits(script[..n.next]);
      assert n.toSource == Zeros(k);
      MoreZeros(n.toSource, k, more);
      assert r.toSource + [] == r.toSource;
    }
  }

  lemma EndKeepsInv(n: Net, script: Script, s0: Sink)
    requires s0.dirs != [] && n.sink.dirs != [] && Inv(n, script, s0) && SinkEnabled(n) && n.toSink == []
    ensures Inv(SinkStep(n), script, s0)
  {
    if n.source.Failed? {
      NotCompletedAfterFatal(n, script, s0);
    }
    EndKeepsAcks(n, script);
  }

  lemma EndKeepsAcks(n: Net, script: Script)
    requires n.sink.dirs != [] && n.next <= |script| && AckInv(n, script)
    requires n.sinkStatus.Running? && n.toSink == []
    ensures AckInv(SinkStep(n), script)
  {
    if !n.source.Failed? {
      var zeros := Zeros(n.sink.acks - Awaits(script[..n.next]));
      assert n.toSource == zeros + [] == zeros;
    }
  }

  lemma NotCompletedAfterFatal(n: Net, script: Script, s0: Sink)
    requires s0.dirs != [] && InputInv(n, script, s0) && n.source.Failed? && n.toSink == []
    ensures !Completed(n.sink)
  {
    assert n.read + n.toSink == n.read;
    FeedAppend(s0, Sent(script[..n.next]), FATAL);
    FatalNeverCompletes(After(s0, script[..n.next]));
  }

  lemma SinkFailKeepsInv(n: Net, script: Script, s0: Sink)
    requires s0.dirs != [] && Inv(n, script, s0) && n.sinkStatus.Running?
    ensures Inv(SinkFails(n).(late := true), script, s0)
  {
    assert !n.source.Failed? ==> n.toSource + [] == n.toSource;
  }

  lemma MoveKeepsInv(n: Net, script: Script, s0: Sink, move: Move)
    requires s0.dirs != [] && n.sink.dirs != [] && Inv(n, script, s0) && Paced(script, s0, 1)
    requires Enabled(n, script, move)
    ensures Inv(Apply(n, script, move), script, s0)
  {
    match move
    case SourceMoves => SourceKeepsInv(n, script, s0);
    case SinkMoves =>
      if n.toSink == [] {
        EndKeepsInv(n, script, s0);
      } else {
        ReadKeepsInv(n, script, s0);
      }
    case SourceTimesOut => FailKeepsInv(n, script, s0, true);
    case SinkTimesOut => SinkFailKeepsInv(n, script, s0);
  }

  lemma {:induction false} RunKeepsInv(n: Net, script: Script, s0: Sink, moves: seq<Move>)
    requires s0.dirs != [] && n.sink.dirs != [] && Inv(n, script, s0) && Paced(script, s0, 1)
    ensures Inv(Run(n, script, moves), script, s0)
    decreases |moves|
  {
    if moves != [] {
      if Enabled(n, script, moves[0]) {
        MoveKeepsInv(n, script, s0, moves[0]);
      }
      RunKeepsInv(Apply(n, script, moves[0]), script, s0, moves[1..]);
    }
  }

  // ----- No deadlock -----

  /**
   * At each awaited acknowledgement the sink has sent enough, or has refused;
   * there and where the source gives up it is not in the middle of a line.
   */
  lemma {:induction false} PacedAt(script: Script, s: Sink, pending: int, k: nat)
    requires s.dirs != [] && Paced(script, s, pending)
    requires k < |script| && !script[k].Send? && Abort !in script[..k]
    ensures
      var r := After(s, script[..k]);
      && Settled(r)
      && (script[k].Expect? ==> r.phase.Rejected? || pending + r.acks - s.acks - Awaits(script[..k]) >= 1)
    decreases k
  {
    if k > 0 {
      var head := script[0];
      assert head == script[..k][0] && script[..k][1..] == script[1..][..k - 1];
      assert Abort !in script[1..][..k - 1];
      if head.Send? {
        FeedAppend(s, head.data, Sent(script[1..][..k - 1]));
        PacedAt(script[1..], Feed(s, head.data), pending + Feed(s, head.data).acks - s.acks, k - 1);
      } else if s.phase.Rejected? {
        RejectedForGood(s, Sent(script[..k]));
      } else {
        assert Sent(script[..k]) == Sent(script[1..][..k - 1]);
        PacedAt(script[1..], s, pending - 1, k - 1);
      }
    }
  }

  lemma NoDeadlock(n: Net, script: Script, s0: Sink)
    requires s0.dirs != [] && s0.acks == 1 && Inv(n, script, s0) && Paced(script, s0, 1)
    ensures Finished(n) || SourceEnabled(n, script) || SinkEnabled(n)
  {
    if n.source.Running? && n.sinkStatus.Running? && n.toSink == [] && n.toSource == [] {
      if Expects(n, script) {
        assert n.read + n.toSink == n.read;
        PacedAt(script, s0, 1, n.next);
        assert false;
      }
    }
  }

  // ----- Every run is finite -----

  function Cost(script: Script): nat {
    |script| + |Sent(script)|
  }

  /** What is still to be done; every move makes it smaller. */
  function Work(n: Net, script: Script): nat {
    (if n.next <= |script| then Cost(script[n.next..]) else 0)
    + |n.toSink|
    + (if n.source.Running? then |FATAL| + 1 else 0)
    + (if n.sinkStatus.Running? then 1 else 0)
  }

  lemma EveryMoveIsProgress(n: Net, script: Script, move: Move)
    requires n.sink.dirs != [] && n.next <= |script| && Enabled(n, script, move)
    ensures Work(Apply(n, script, move), script) < Work(n, script)
  {
    if move.SourceMoves? && n.next < |script| {
      var rest := script[n.next..];
      assert rest[1..] == script[n.next + 1..];
      assert rest[0] == script[n.next];
    }
  }

  /** How many of the moves were possible when their turn came. */
  function MovesMade(n: Net, script: Script, moves: seq<Move>): nat
    requires n.sink.dirs != []
    decreases |moves|
  {
    if moves == [] then 0
    else
      (if Enabled(n, script, moves[0]) then 1 else 0) + MovesMade(Apply(n, script, moves[0]), script, moves[1..])
  }

  /** No schedule runs for ever: the moves made, with the work left over, are at most the work there was. */
  lemma {:induction false} EveryRunIsFinite(n: Net, script: Script, s0: Sink, moves: seq<Move>)
    requires s0.dirs != [] && n.sink.dirs != [] && Inv(n, script, s0) && Paced(script, s0, 1)
    ensures MovesMade(n, script, moves) + Work(Run(n, script, moves), script) <= Work(n, script)
    decreases |moves|
  {
    if moves != [] {
      if Enabled(n, script, moves[0]) {
        EveryMoveIsProgress(n, script, moves[0]);
        MoveKeepsInv(n, script, s0, moves[0]);
      }
      EveryRunIsFinite(Apply(n, script, moves[0]), script, s0, moves[1..]);
    }
  }

  // ----- Success -----

  lemma {:induction false} TransferableDoesNotAbort(
      t: Tree, name: bytes, request: Request, recursiveSink: bool, depth: nat)
    requires Transferable(t, name, request, recursiveSink, depth)
    ensures Abort !in EntryScript(t, name, request, depth)
    decreases t
  {
    if t.Dir? {
      TransferableEntriesDoNotAbort(t.entries, request, recursiveSink, depth + 1);
    }
  }

  lemma {:induction false} TransferableEntriesDoNotAbort(
      entries: Entries, request: Request, recursiveSink: bool, depth: nat)
    requires TransferableEntries(entries, request, recursiveSink, depth)
    ensures Abort !in EntriesScript(entries, request, depth)
    decreases entries
  {
    if entries.More? {
      TransferableDoesNotAbort(entries.child, entries.name, request, recursiveSink, depth);
      TransferableEntriesDoNotAbort(entries.rest, request, recursiveSink, depth);
    }
  }

  lemma PrefixNotRejected(s: Sink, a: bytes, b: bytes)
    requires s.dirs != [] && !Feed(s, a + b).phase.Rejected?
    ensures !Feed(s, a).phase.Rejected?
  {
    FeedAppend(s, a, b);
    if Feed(s, a).phase.Rejected? {
      RejectedForGood(Feed(s, a), b);
    }
  }

  lemma SentPrefix(script: Script, k: nat)
    requires k <= |script|
    ensures Sent(script) == Sent(script[..k]) + Sent(script[k..])
  {
    assert script == script[..k] + script[k..];
    SentAppend(script[..k], script[k..]);
  }

  ghost predicate NoFailure(n: Net) {
    !n.source.Failed? && !n.sinkStatus.Failed?
  }

  /** When the whole script completes the sink, no move but a passed deadline can fail. */
  lemma MoveDoesNotFail(n: Net, script: Script, s0: Sink, move: Move)
    requires s0.dirs != [] && n.sink.dirs != [] && Inv(n, script, s0) && NoFailure(n)
    requires Abort !in script && Completed(After(s0, script))
    requires Enabled(n, script, move)
    ensures NoFailure(Apply(n, script, move)) || Apply(n, script, move).late
  {
    match move
    case SourceMoves => SourceDoesNotFail(n, script);
    case SinkMoves => SinkDoesNotFail(n, script, s0);
    case _ =>
  }

  lemma SourceDoesNotFail(n: Net, script: Script)
    requires n.next <= |script| && AckInv(n, script) && EndInv(n, script) && NoFailure(n)
    requires Abort !in script && SourceEnabled(n, script)
    ensures NoFailure(SourceStep(n, script))
  {
    assert n.next < |script| ==> script[n.next] in script;
    NextAnswer(n, script);
  }

  lemma SinkDoesNotFail(n: Net, script: Script, s0: Sink)
    requires s0.dirs != [] && n.sink.dirs != [] && InputInv(n, script, s0) && NoFailure(n)
    requires Completed(After(s0, script)) && SinkEnabled(n)
    ensures NoFailure(SinkStep(n))
  {
    SentPrefix(script, n.next);
    if n.toSink == [] {
      assert script[..|script|] == script;
      assert n.read + n.toSink == n.read;
    } else {
      var tail := n.toSink[1..] + Sent(script[n.next..]);
      assert n.read + n.toSink == (n.read + [n.toSink[0]]) + n.toSink[1..];
      assert Sent(script) == (n.read + [n.toSink[0]]) + tail;
      PrefixNotRejected(s0, n.read + [n.toSink[0]], tail);
      FeedSnoc(s0, n.read, n.toSink[0]);
    }
  }

  lemma {:induction false} RunDoesNotFail(n: Net, script: Script, s0: Sink, moves: seq<Move>)
    requires s0.dirs != [] && n.sink.dirs != [] && Inv(n, script, s0) && Paced(script, s0, 1)
    requires NoFailure(n) || n.late
    requires Abort !in script && Completed(After(s0, script))
    ensures NoFailure(Run(n, script, moves)) || Run(n, script, moves).late
    decreases |moves|
  {
    if moves != [] {
      var next := Apply(n, script, moves[0]);
      if Enabled(n, script, moves[0]) {
        MoveKeepsInv(n, script, s0, moves[0]);
        if !n.late {
          MoveDoesNotFail(n, script, s0, moves[0]);
        }
      }
      RunDoesNotFail(next, script, s0, moves[1..]);
    }
  }

  /** A source that has succeeded has sent its whole script and has had every acknowledgement. */
  lemma SourceSuccess(n: Net, script: Script, s0: Sink)
    requires s0.dirs != [] && Inv(n, script, s0) && n.source.Succeeded?
    ensures Abort !in script && After(s0, script).acks >= Awaits(script)
  {
    assert script[..|script|] == script;
    FeedAppend(s0, n.read, n.toSink);
    FeedAcks(n.sink, n.toSink);
  }

  /** A sink that has succeeded has read the whole script, and the source has succeeded too. */
  lemma SinkSuccess(n: Net, script: Script, s0: Sink)
    requires s0.dirs != [] && Inv(n, script, s0) && n.sinkStatus.Succeeded?
    ensures n.source.Succeeded? && n.sink == After(s0, script) && Completed(n.sink)
  {
    assert script[..|script|] == script;
    assert n.read + n.toSink == n.read;
  }

  // ----- The transfer of a tree -----

  /** A source session after its target has been found. */
  function Session(t: Tree, name: bytes, request: Request): Script {
    [Expect] + EntryScript(t, name, request, 0)
  }

  /** The sink starts with a directory that exists or that it has just made. */
  ghost predicate Receives(s0: Sink, fs: FileSystem, request: Request, newDirMode: nat) {
    && Start(fs, request, newDirMode) == Some(s0)
    && s0.forced.None?
  }

  function Prepared(fs: FileSystem, path: Path, newDirMode: nat): FileSystem {
    if IsDir(fs, path) then fs else fs[path := DirEntry(newDirMode)]
  }

  lemma InitialInv(script: Script, s0: Sink)
    requires s0.dirs != [] && s0.acks == 1 && !s0.phase.Rejected?
    ensures Inv(Initial(s0), script, s0)
  {
    assert script[..0] == [];
  }

  /** The greeting is awaited first; then the session delivers what its entry delivers. */
  lemma SessionDelivers(s0: Sink, entry: Script, arrives: bool, stored: FileSystem)
    requires |s0.dirs| == 1 && s0.acks == 1 && Settled(s0) && Delivers(s0, entry, arrives, stored)
    ensures
      var script := [Expect] + entry;
      && Paced(script, s0, 1)
      && (Abort !in script ==>
            if arrives then Completed(After(s0, script)) && After(s0, script).fs == s0.fs + stored
            else Refused(s0, After(s0, script), Awaits(entry)))
      && (Abort in script <==> Abort in entry) && Awaits(script) == 1 + Awaits(entry)
  {
    var script := [Expect] + entry;
    assert script[1..] == entry;
    assert Sent(script) == Sent(entry);
  }

  /** How a session of two processes can stand, for an entry that arrives or not. */
  ghost predicate Outcome(n: Net, script: Script, arrives: bool, files: FileSystem) {
    && (Finished(n) || Enabled(n, script, SourceMoves) || Enabled(n, script, SinkMoves))
    && (n.sinkStatus.Succeeded? ==> n.source.Succeeded? && n.sink.fs == files)
    && (n.source.Succeeded? ==> arrives)
    && (Finished(n) && !n.late ==>
          (n.source.Succeeded? <==> arrives) && (n.sinkStatus.Succeeded? <==> arrives))
  }

  /**
   * Any interleaving of a session whose entry is delivered, with deadlines
   * that may pass at any wait: one side can move or both have stopped. No
   * side succeeds unless the entry arrives, the sink never succeeds alone,
   * and when no deadline has passed both succeed if the entry arrives.
   */
  lemma EveryScheduleDelivers(s0: Sink, entry: Script, arrives: bool, stored: FileSystem, moves: seq<Move>)
    requires |s0.dirs| == 1 && s0.acks == 1 && s0.phase == ReadingLine([])
    requires Delivers(s0, entry, arrives, stored) && (arrives ==> Abort !in entry)
    ensures Outcome(Run(Initial(s0), [Expect] + entry, moves), [Expect] + entry, arrives, s0.fs + stored)
  {
    var script := [Expect] + entry;
    var n := Run(Initial(s0), script, moves);
    SessionDelivers(s0, entry, arrives, stored);
    InitialInv(script, s0);
    RunKeepsInv(Initial(s0), script, s0, moves);
    NoDeadlock(n, script, s0);
    if n.source.Succeeded? {
      SourceSuccess(n, script, s0);
    }
    if n.sinkStatus.Succeeded? {
      SinkSuccess(n, script, s0);
    }
    if arrives {
      RunDoesNotFail(Initial(s0), script, s0, moves);
    }
  }

  /**
   * The main result. A source session for any tree runs against a sink whose
   * target is a directory, existing or made for it, with any interleaving and
   * deadlines that may pass at any wait. At every point one side can move or
   * both have stopped. A side succeeds only for a transferable tree, the sink
   * only together with the source, and its files are then the earlier ones
   * together with exactly the tree. When no deadline has passed, both succeed
   * if the tree is transferable.
   */
  lemma EveryScheduleTransfers(
      fs: FileSystem, sinkRequest: Request, newDirMode: nat, s0: Sink,
      t: Tree, name: bytes, request: Request, moves: seq<Move>)
    requires Receives(s0, fs, sinkRequest, newDirMode)
    requires Sendable(name) && Sound(t)
    requires FreeBelow(Prepared(fs, Normals(sinkRequest.target), newDirMode), Normals(sinkRequest.target) + [name])
    ensures
      var script := Session(t, name, request);
      Outcome(
        Run(Initial(s0), script, moves), script,
        Transferable(t, name, request, sinkRequest.recursive, 0),
        Prepared(fs, Normals(sinkRequest.target), newDirMode) + Flatten(Normals(sinkRequest.target) + [name], t))
  {
    var arrives := Transferable(t, name, request, s0.recursive, 0);
    EntryDelivered(s0, t, name, request, 0);
    if arrives {
      TransferableDoesNotAbort(t, name, request, s0.recursive, 0);
    }
    EveryScheduleDelivers(
      s0, EntryScript(t, name, request, 0), arrives, Flatten(Normals(sinkRequest.target) + [name], t), moves);
  }

  /**
   * The same for a sink whose target is a file or a new name in an existing
   * directory: a transferable file is stored there whatever its own name, and
   * nothing but a file is taken.
   */
  lemma EveryScheduleStoresTheFile(
      fs: FileSystem, sinkRequest: Request, newDirMode: nat, s0: Sink,
      t: Tree, name: bytes, request: Request, moves: seq<Move>)
    requires Start(fs, sinkRequest, newDirMode) == Some(s0) && !IsDir(fs, Normals(sinkRequest.target))
    requires !sinkRequest.targetIsDirectory
    requires Sendable(name) && Sound(t)
    ensures
      var script := Session(t, name, request);
      Outcome(
        Run(Initial(s0), script, moves), script,
        t.File? && Transferable(t, name, request, sinkRequest.recursive, 0),
        fs + StoredFile(Normals(sinkRequest.target), t))
  {
    var path := Normals(sinkRequest.target);
    var arrives := t.File? && Transferable(t, name, request, s0.recursive, 0);
    ForcedEntryDelivered(s0, path, t, name, request);
    if arrives {
      TransferableDoesNotAbort(t, name, request, s0.recursive, 0);
    }
    EveryScheduleDelivers(s0, EntryScript(t, name, request, 0), arrives, StoredFile(path, t), moves);
  }

  // ----- The recursion limits of the two sides differ by one -----

  /** `k` nested directories, each named `a`, around an empty one. */
  function Chain(k: nat): Tree {
    Dir(0, Stamp(None, None), if k == 0 then Nil else More([97], Chain(k - 1), Nil))
  }

  lemma {:induction false} ChainLimits(k: nat, request: Request, depth: nat)
    requires request.recursive
    ensures Sound(Chain(k))
    ensures Transferable(Chain(k), [97], request, true, depth) <==> depth + k < MAX_RECURSION_DEPTH - 1
    ensures Abort !in EntryScript(Chain(k), [97], request, depth) <==> depth + k < MAX_RECURSION_DEPTH
    decreases k
  {
    ShortLineFits();
    ShortNameIsSendable();
    if k > 0 {
      ChainLimits(k - 1, request, depth + 1);
      assert EntriesScript(Nil, request, depth + 1) == [];
      var inner := EntryScript(Chain(k - 1), [97], request, depth + 1);
      assert EntriesScript(Chain(k).entries, request, depth + 1) == inner + [];
      assert TransferableEntries(Nil, request, true, depth + 1);
      assert TransferableEntries(Chain(k).entries, request, true, depth + 1)
          == Transferable(Chain(k - 1), [97], request, true, depth + 1);
    }
  }

  lemma ShortNameIsSendable()
    ensures Sendable([97])
  {
    assert !ControlAt([97], 0);
    var none: bytes := [];
    assert Utf8(none) && [97][1..] == none;
  }

  lemma ShortLineFits()
    ensures LineFits(LETTER_D, 0, 0, [97])
  {
    assert Digits(0, 8) == [ZERO] && Digits(0, 10) == [ZERO];
  }

  /**
   * The bound is tight: a directory at depth 31 is sent in full by the source
   * and refused by the sink, one at depth 30 arrives.
   */
  lemma DepthBoundIsTight(request: Request)
    requires request.recursive
    ensures Abort !in EntryScript(Chain(31), [97], request, 0)
    ensures !Transferable(Chain(31), [97], request, true, 0)
    ensures Transferable(Chain(30), [97], request, true, 0)
  {
    ChainLimits(31, request, 0);
    ChainLimits(30, request, 0);
  }
}
