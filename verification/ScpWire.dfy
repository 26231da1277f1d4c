/**
 * The receiving side as the program runs it: a channel that yields messages,
 * a byte queue in front of it, and loops that read lines and file data.
 * `ReceiveSink` is proved equal to the byte machine of `ScpSink` on the
 * concatenated payload, so its result cannot depend on how the payload was
 * cut into messages.
 */
module ScpWire {
  import opened Common
  import opened ScpText
  import opened ScpSink

  /** What waiting on the channel yields; an exhausted list is a channel that is gone. */
  datatype Arrival = Data(data: bytes) | Eof | Close | Other | Gone | Silence

  /** The payload bytes that arrive before input ends. */
  function Stream(channel: seq<Arrival>): bytes {
    if channel == [] then []
    else
      match channel[0]
      case Data(data) => data + Stream(channel[1..])
      case Other => Stream(channel[1..])
      case _ => []
  }

  /** Input ends by end-of-file or close, not by silence or a lost channel. */
  predicate EndedByPeer(channel: seq<Arrival>) {
    && channel != []
    && match channel[0]
       case Eof => true
       case Close => true
       case Gone => false
       case Silence => false
       case _ => EndedByPeer(channel[1..])
  }

  function Zeros(n: nat): (z: bytes)
    ensures |z| == n
  {
    seq(n, _ => 0)
  }

  predicate IsLine(line: bytes) {
    && 0 < |line| <= MAX_CONTROL_LINE
    && line[|line| - 1] == NEWLINE
    && NEWLINE !in line[..|line| - 1]
  }

  class Wire {
    var channel: seq<Arrival>
    var buffered: bytes
    var endOfInput: bool
    var incompleteControl: bool
    var sent: bytes

    constructor (arrivals: seq<Arrival>)
      ensures channel == arrivals && buffered == [] && sent == []
      ensures !endOfInput && !incompleteControl
    {
      channel, buffered, sent := arrivals, [], [];
      endOfInput, incompleteControl := false, false;
    }

    /** Every byte still to be read. */
    function Flat(): bytes
      reads this
    {
      buffered + Stream(channel)
    }

    method SendAck()
      modifies this`sent
      ensures sent == old(sent) + [0]
    {
      sent := sent + [0];
    }

    method ReadByte() returns (r: Option<byte>)
      modifies this`channel, this`buffered, this`endOfInput
      ensures r.Some? ==> old(Flat()) == [r.value] + Flat() && endOfInput == old(endOfInput)
      ensures r.Some? ==> EndedByPeer(channel) == old(EndedByPeer(channel))
      ensures r.None? ==> old(Flat()) == []
      ensures r.None? ==> endOfInput == (old(endOfInput) || old(EndedByPeer(channel)))
    {
      while true
        invariant Flat() == old(Flat())
        invariant EndedByPeer(channel) == old(EndedByPeer(channel))
        invariant endOfInput == old(endOfInput)
        decreases |channel|
      {
        if buffered != [] {
          r := Some(buffered[0]);
          buffered := buffered[1..];
          return;
        }
        if channel == [] {
          return None;
        }
        var message := channel[0];
        channel := channel[1..];
        match message {
          case Data(data) => buffered := data;
          case Other =>
          case Eof =>
            endOfInput := true;
            return None;
          case Close =>
            endOfInput := true;
            return None;
          case Gone => return None;
          case Silence => return None;
        }
      }
    }

    method ReadLine() returns (r: Option<bytes>)
      modifies this`channel, this`buffered, this`endOfInput, this`incompleteControl
      ensures r.Some? ==> IsLine(r.value) && old(Flat()) == r.value + Flat()
      ensures r.Some? ==> endOfInput == old(endOfInput) && !incompleteControl
      ensures r.Some? ==> EndedByPeer(channel) == old(EndedByPeer(channel))
      ensures r.None? && |old(Flat())| >= MAX_CONTROL_LINE ==>
        NEWLINE !in old(Flat())[..MAX_CONTROL_LINE] && endOfInput == old(endOfInput)
      ensures r.None? && |old(Flat())| < MAX_CONTROL_LINE ==>
        && NEWLINE !in old(Flat())
        && endOfInput == (old(endOfInput) || old(EndedByPeer(channel)))
        && incompleteControl == (old(Flat()) != [])
    {
      var line: bytes := [];
      while |line| < MAX_CONTROL_LINE
        invariant |line| <= MAX_CONTROL_LINE && NEWLINE !in line
        invariant old(Flat()) == line + Flat()
        invariant endOfInput == old(endOfInput)
        invariant EndedByPeer(channel) == old(EndedByPeer(channel))
      {
        label before:
        var b := ReadByte();
        if b.None? {
          incompleteControl := line != [];
          assert old(Flat()) == line;
          return None;
        }
        assert old(Flat()) == (line + [b.value]) + Flat();
        line := line + [b.value];
        if b.value == NEWLINE {
          incompleteControl := false;
          return Some(line);
        }
      }
      assert old(Flat())[..MAX_CONTROL_LINE] == line;
      return None;
    }

    method ReadExact(length: nat) returns (r: Option<bytes>)
      modifies this`channel, this`buffered, this`endOfInput
      ensures r.Some? ==> |r.value| == length && old(Flat()) == r.value + Flat()
      ensures r.Some? ==> endOfInput == old(endOfInput)
      ensures r.Some? ==> EndedByPeer(channel) == old(EndedByPeer(channel))
      ensures r.None? ==> |old(Flat())| < length
    {
      var data: bytes := [];
      while |data| < length
        invariant |data| <= length
        invariant old(Flat()) == data + Flat()
        invariant endOfInput == old(endOfInput)
        invariant EndedByPeer(channel) == old(EndedByPeer(channel))
      {
        var b := ReadByte();
        if b.None? {
          assert old(Flat()) == data;
          return None;
        }
        assert old(Flat()) == (data + [b.value]) + Flat();
        data := data + [b.value];
      }
      return Some(data);
    }

    method ExpectAck() returns (ok: bool)
      modifies this`channel, this`buffered, this`endOfInput
      ensures ok ==> old(Flat()) == [0] + Flat() && endOfInput == old(endOfInput)
      ensures ok ==> EndedByPeer(channel) == old(EndedByPeer(channel))
      ensures !ok ==> old(Flat()) == [] || old(Flat())[0] != 0
    {
      var b := ReadByte();
      return b.Some? && b.value == 0;
    }

    /** A D record: refused, or a directory created, entered and acknowledged. */
    method EnterDirectory(
        files: FileSystem, directories: seq<Path>, forcedFile: Option<Path>, recursive: bool,
        line: bytes, ghost s: Sink)
      returns (ok: bool, files': FileSystem, directories': seq<Path>)
      requires s.phase == ReadingLine([]) && s.fs == files && s.dirs == directories && directories != []
      requires s.forced == forcedFile && s.recursive == recursive && sent == Zeros(s.acks)
      modifies this`sent
      ensures ok == (ProcessEnter(s, line).phase == ReadingLine([]))
      ensures !ok ==> ProcessEnter(s, line) == Reject(s)
      ensures files' == ProcessEnter(s, line).fs && directories' == ProcessEnter(s, line).dirs
      ensures sent == Zeros(ProcessEnter(s, line).acks)
    {
      ok, files', directories' := false, files, directories;
      if forcedFile.Some? || !recursive || |directories| >= MAX_RECURSION_DEPTH {
        return;
      }
      var control := ParseControl(line, LETTER_D);
      if control.None? || control.value.size != 0 {
        return;
      }
      var name := PortableName(control.value.name);
      if name.None? {
        return;
      }
      var path := directories[|directories| - 1] + [name.value];
      var created := CreateDir(files, path, control.value.mode);
      if created.None? {
        return;
      }
      ok, files', directories' := true, created.value, directories + [path];
      SendAck();
    }

    /** The data of an accepted C record and its closing zero byte. */
    method StoreFile(files: FileSystem, path: Path, mode: nat, size: nat, ghost s: Sink)
      returns (ok: bool, files': FileSystem, ghost s': Sink)
      requires s.phase == DataPhase(path, mode, size, []) && s.fs == files && s.dirs != []
      requires sent == Zeros(s.acks) && !endOfInput
      modifies this`channel, this`buffered, this`endOfInput, this`sent
      ensures s'.dirs == s.dirs && files' == s'.fs && sent == Zeros(s'.acks)
      ensures !ok ==> s' == Feed(s, old(Flat())) && !Completed(s')
      ensures ok ==> s' == Accept(s.(fs := files')) && !endOfInput
      ensures ok ==> Feed(s, old(Flat())) == Feed(s', Flat())
      ensures ok ==> EndedByPeer(channel) == old(EndedByPeer(channel))
      ensures ok ==> |Flat()| < |old(Flat())|
    {
      ok, files' := false, files;
      var data := ReadExact(size);
      if data.None? {
        FeedShortData(s, old(Flat()));
        s' := Feed(s, old(Flat()));
        return;
      }
      ghost var rest := Flat();
      FeedAllData(s, data.value, rest);
      ok, files', s' := StoreData(files, path, mode, data.value, s.(phase := ReadingZero(path, mode, data.value)));
    }

    /** The closing zero byte, and the file itself. */
    method StoreData(files: FileSystem, path: Path, mode: nat, data: bytes, ghost s: Sink)
      returns (ok: bool, files': FileSystem, ghost s': Sink)
      requires s.phase == ReadingZero(path, mode, data) && s.fs == files && s.dirs != []
      requires sent == Zeros(s.acks) && !endOfInput
      modifies this`channel, this`buffered, this`endOfInput, this`sent
      ensures s'.dirs == s.dirs && files' == s'.fs && sent == Zeros(s'.acks)
      ensures !ok ==> s' == Feed(s, old(Flat())) && !Completed(s')
      ensures ok ==> s' == Accept(s.(fs := files')) && !endOfInput
      ensures ok ==> Feed(s, old(Flat())) == Feed(s', Flat())
      ensures ok ==> EndedByPeer(channel) == old(EndedByPeer(channel))
      ensures ok ==> |Flat()| < |old(Flat())|
    {
      ok, files', s' := false, files, s;
      ghost var rest := Flat();
      var zero := ExpectAck();
      if !zero {
        if rest != [] {
          RejectedForGood(Reject(s'), rest[1..]);
          s' := Reject(s');
        }
        return;
      }
      assert rest[0] == 0 && rest[1..] == Flat();
      var stored := WriteFile(files, path, mode, data);
      if stored.None? {
        RejectedForGood(Reject(s'), Flat());
        s' := Reject(s');
        return;
      }
      ok, files' := true, stored.value;
      SendAck();
      s' := Step(s', 0);
    }

    /** A C record and the file it announces; the forced name is used up by the first. */
    method ReceiveFile(
        files: FileSystem, directories: seq<Path>, forcedFile: Option<Path>, line: bytes, ghost s: Sink)
      returns (ok: bool, files': FileSystem, forcedFile': Option<Path>, ghost s': Sink)
      requires s.phase == ReadingLine([]) && s.fs == files && s.dirs == directories && directories != []
      requires s.forced == forcedFile && sent == Zeros(s.acks) && !endOfInput
      modifies this`channel, this`buffered, this`endOfInput, this`sent
      ensures s'.dirs == directories && s'.fs == files' && sent == Zeros(s'.acks)
      ensures !ok ==> s' == Feed(ProcessCopy(s, line), old(Flat())) && !Completed(s')
      ensures ok ==> s'.phase == ReadingLine([]) && s'.forced == forcedFile' && s'.recursive == s.recursive
      ensures ok ==> Feed(ProcessCopy(s, line), old(Flat())) == Feed(s', Flat()) && !endOfInput
      ensures ok ==> EndedByPeer(channel) == old(EndedByPeer(channel))
      ensures ok ==> |Flat()| < |old(Flat())|
    {
      ok, files', forcedFile', s' := false, files, forcedFile, Reject(s);
      var announced;
      announced, forcedFile' := AcceptCopy(directories, forcedFile, line, s);
      if announced.None? {
        RejectedForGood(s', Flat());
        return;
      }
      var (path, mode, size) := announced.value;
      ok, files', s' := StoreFile(files, path, mode, size, ProcessCopy(s, line));
    }

    /** Checks a C record, chooses where its file goes and acknowledges it. */
    method AcceptCopy(directories: seq<Path>, forcedFile: Option<Path>, line: bytes, ghost s: Sink)
      returns (announced: Option<(Path, nat, nat)>, forcedFile': Option<Path>)
      requires s.dirs == directories && directories != []
      requires s.forced == forcedFile && sent == Zeros(s.acks)
      modifies this`sent
      ensures announced.None? ==> ProcessCopy(s, line) == Reject(s) && sent == old(sent)
      ensures announced.Some? ==>
        && ProcessCopy(s, line) == Announced(s, announced.value.0, announced.value.1, announced.value.2)
        && forcedFile' == None && sent == Zeros(s.acks + 1)
    {
      forcedFile' := forcedFile;
      var control := ParseControl(line, LETTER_C);
      if control.None? || control.value.size > MAX_FILE_SIZE {
        return None, forcedFile;
      }
      var name := PortableName(control.value.name);
      if name.None? {
        return None, forcedFile;
      }
      var path;
      if forcedFile.Some? {
        path, forcedFile' := forcedFile.value, None;
      } else {
        path := directories[|directories| - 1] + [name.value];
      }
      SendAck();
      announced := Some((path, control.value.mode, control.value.size));
    }

    /**
     * Runs the sink on everything the channel delivers. The outcome, the file
     * system and the acknowledgements are those of the byte machine.
     */
    method ReceiveSink(fs: FileSystem, request: Request, newDirMode: nat)
      returns (ok: bool, files: FileSystem)
      requires buffered == [] && !endOfInput && sent == []
      modifies this
      ensures Start(fs, request, newDirMode).None? ==> !ok && files == fs && sent == []
      ensures Start(fs, request, newDirMode).Some? ==>
        var final := Feed(Start(fs, request, newDirMode).value, old(Stream(channel)));
        && ok == (Completed(final) && old(EndedByPeer(channel)))
        && files == final.fs
        && sent == Zeros(final.acks)
    {
      files := fs;
      var target := ResolveSinkTarget(fs, request, newDirMode);
      if target.None? {
        return false, files;
      }
      files := target.value.0;
      var directories := [target.value.1.directory];
      var forcedFile := target.value.1.forced;
      ghost var s := Start(fs, request, newDirMode).value;
      ghost var final := Feed(s, Stream(channel));
      assert Stream(channel) == Flat();
      SendAck();
      while true
        invariant s.phase == ReadingLine([]) && s.fs == files && s.recursive == request.recursive
        invariant s.dirs == directories && s.forced == forcedFile && directories != []
        invariant !endOfInput && sent == Zeros(s.acks)
        invariant EndedByPeer(channel) == old(EndedByPeer(channel))
        invariant final == Feed(s, Flat())
        decreases |Flat()|
      {
        ghost var flat := Flat();
        var line := ReadLine();
        if line.None? {
          RunEnds(s, flat);
          return |directories| == 1 && endOfInput && !incompleteControl && forcedFile.None?, files;
        }
        FeedOneLine(s, line.value, Flat());
        var received;
        received, files, directories, forcedFile, s :=
          ReceiveRecord(files, directories, forcedFile, request.recursive, line.value, s);
        if !received {
          return false, files;
        }
      }
    }

    /** One complete control line, with the file a C record announces. */
    method ReceiveRecord(
        files: FileSystem, directories: seq<Path>, forcedFile: Option<Path>, recursive: bool, line: bytes,
        ghost s: Sink)
      returns (ok: bool, files': FileSystem, directories': seq<Path>, forcedFile': Option<Path>, ghost s': Sink)
      requires s.phase == ReadingLine([]) && s.fs == files && s.dirs == directories && directories != []
      requires s.forced == forcedFile && s.recursive == recursive && sent == Zeros(s.acks) && !endOfInput
      requires IsLine(line)
      modifies this`channel, this`buffered, this`endOfInput, this`sent
      ensures s'.dirs != [] && s'.fs == files' && sent == Zeros(s'.acks)
      ensures !ok ==> s' == Feed(ProcessLine(s, line), old(Flat())) && !Completed(s')
      ensures ok ==> s'.phase == ReadingLine([]) && s'.dirs == directories' && s'.forced == forcedFile'
      ensures ok ==> s'.recursive == recursive && !endOfInput
      ensures ok ==> Feed(ProcessLine(s, line), old(Flat())) == Feed(s', Flat())
      ensures ok ==> EndedByPeer(channel) == old(EndedByPeer(channel))
      ensures ok ==> |Flat()| <= |old(Flat())|
    {
      ok, files', directories', forcedFile', s' := false, files, directories, forcedFile, Reject(s);
      RejectedForGood(s', Flat());
      if line[0] == LETTER_T {
        if ParseTimes(line) {
          SendAck();
          ok, s' := true, ProcessTimes(s);
        }
      } else if line[0] == LETTER_D {
        ok, files', directories' := EnterDirectory(files, directories, forcedFile, recursive, line, s);
        s' := ProcessEnter(s, line);
      } else if line == [LETTER_E, NEWLINE] {
        if |directories| > 1 {
          directories' := directories[..|directories| - 1];
          SendAck();
          ok, s' := true, ProcessLeave(s);
        }
      } else if line[0] == LETTER_C {
        ok, files', forcedFile', s' := ReceiveFile(files, directories, forcedFile, line, s);
      }
    }
  }

  // ----- How the byte machine treats lines and data -----

  lemma {:induction false} FeedText(s: Sink, line: bytes, text: bytes)
    requires s.dirs != [] && s.phase == ReadingLine(line)
    requires NEWLINE !in text && |line| + |text| < MAX_CONTROL_LINE
    ensures Feed(s, text) == s.(phase := ReadingLine(line + text))
    decreases |text|
  {
    if text == [] {
      assert line + text == line;
    } else {
      var s' := Step(s, text[0]);
      FeedText(s', line + [text[0]], text[1..]);
      assert line + [text[0]] + text[1..] == line + text;
    }
  }

  /** A whole line has the effect of its record. */
  lemma FeedOneLine(s: Sink, line: bytes, rest: bytes)
    requires s.dirs != [] && s.phase == ReadingLine([])
    requires IsLine(line)
    ensures Feed(s, line) == ProcessLine(s, line)
    ensures Feed(s, line + rest) == Feed(ProcessLine(s, line), rest)
  {
    FeedTextAndNewline(s, line[..|line| - 1]);
    assert line == line[..|line| - 1] + [NEWLINE];
    FeedAppend(s, line, rest);
  }

  lemma FeedTextAndNewline(s: Sink, text: bytes)
    requires s.dirs != [] && s.phase == ReadingLine([])
    requires NEWLINE !in text && |text| < MAX_CONTROL_LINE
    ensures Feed(s, text + [NEWLINE]) == ProcessLine(s, text + [NEWLINE])
  {
    FeedText(s, [], text);
    assert [] + text == text;
    FeedSnoc(s, text, NEWLINE);
    LineIgnoresPhase(s, ReadingLine(text), text + [NEWLINE]);
  }

  /** A record replaces the phase, whatever it was. */
  lemma LineIgnoresPhase(s: Sink, phase: Phase, line: bytes)
    requires s.dirs != [] && line != [] && line[|line| - 1] == NEWLINE
    ensures ProcessLine(s.(phase := phase), line) == ProcessLine(s, line)
  {
    EnterIgnoresPhase(s, phase, line);
    CopyIgnoresPhase(s, phase, line);
  }

  lemma EnterIgnoresPhase(s: Sink, phase: Phase, line: bytes)
    requires s.dirs != []
    ensures ProcessEnter(s.(phase := phase), line) == ProcessEnter(s, line)
  {
  }

  lemma CopyIgnoresPhase(s: Sink, phase: Phase, line: bytes)
    requires s.dirs != []
    ensures ProcessCopy(s.(phase := phase), line) == ProcessCopy(s, line)
  {
  }

  /** No line to be had: an overlong line is refused, a short one stays unfinished. */
  lemma FeedWithoutLine(s: Sink, input: bytes)
    requires s.dirs != [] && s.phase == ReadingLine([])
    requires NEWLINE !in input[..Min(|input|, MAX_CONTROL_LINE)]
    ensures |input| < MAX_CONTROL_LINE ==> Feed(s, input) == s.(phase := ReadingLine(input))
    ensures |input| >= MAX_CONTROL_LINE ==> Feed(s, input) == Reject(s)
  {
    if |input| < MAX_CONTROL_LINE {
      assert input[..|input|] == input;
      FeedText(s, [], input);
      assert [] + input == input;
    } else {
      var text := input[..MAX_CONTROL_LINE - 1];
      var b, rest := input[MAX_CONTROL_LINE - 1], input[MAX_CONTROL_LINE..];
      assert b == input[..MAX_CONTROL_LINE][MAX_CONTROL_LINE - 1];
      assert input == (text + [b]) + rest;
      FeedText(s, [], text);
      assert [] + text == text;
      FeedSnoc(s, text, b);
      FeedAppend(s, text + [b], rest);
      RejectedForGood(Reject(s), rest);
    }
  }

  /** Without a further line only a run that stands at a record's end is complete. */
  lemma RunEnds(s: Sink, input: bytes)
    requires s.dirs != [] && s.phase == ReadingLine([])
    requires |input| < MAX_CONTROL_LINE ==> NEWLINE !in input
    requires |input| >= MAX_CONTROL_LINE ==> NEWLINE !in input[..MAX_CONTROL_LINE]
    ensures Feed(s, input).fs == s.fs && Feed(s, input).acks == s.acks
    ensures Completed(Feed(s, input)) <==> input == [] && |s.dirs| == 1 && s.forced.None?
  {
    assert |input| < MAX_CONTROL_LINE ==> input[..|input|] == input;
    FeedWithoutLine(s, input);
  }

  lemma {:induction false} FeedData(s: Sink, data: bytes)
    requires s.dirs != [] && s.phase.ReadingData?
    requires |s.phase.data| + |data| <= s.phase.size && |s.phase.data| < s.phase.size
    ensures Feed(s, data)
         == s.(phase := DataPhase(s.phase.path, s.phase.mode, s.phase.size, s.phase.data + data))
    decreases |data|
  {
    var so := s.phase.data;
    if data == [] {
      assert so + data == so;
    } else {
      var s' := Step(s, data[0]);
      assert so + [data[0]] + data[1..] == so + data;
      if s'.phase.ReadingData? {
        FeedData(s', data[1..]);
      } else {
        assert data[1..] == [];
      }
    }
  }

  predicate AwaitsData(s: Sink) {
    match s.phase
    case ReadingData(_, _, size, data) => data == [] && size > 0
    case ReadingZero(_, _, data) => data == []
    case _ => false
  }

  function Awaited(s: Sink): nat
    requires AwaitsData(s)
  {
    if s.phase.ReadingData? then s.phase.size else 0
  }

  lemma FeedAllData(s: Sink, data: bytes, rest: bytes)
    requires s.dirs != [] && AwaitsData(s) && |data| == Awaited(s)
    ensures Feed(s, data + rest)
         == Feed(s.(phase := ReadingZero(s.phase.path, s.phase.mode, data)), rest)
    ensures Feed(s, data) == s.(phase := ReadingZero(s.phase.path, s.phase.mode, data))
  {
    FeedAppend(s, data, rest);
    if s.phase.ReadingData? {
      FeedData(s, data);
      assert [] + data == data;
    }
  }

  lemma FeedShortData(s: Sink, data: bytes)
    requires s.dirs != [] && AwaitsData(s) && |data| < Awaited(s)
    ensures Feed(s, data).phase.ReadingData?
    ensures Feed(s, data).fs == s.fs && Feed(s, data).acks == s.acks && Feed(s, data).dirs == s.dirs
  {
    FeedData(s, data);
  }

  /** Cutting one message in two anywhere in the arrivals changes neither the payload nor its end. */
  lemma {:induction false} SplittingIsInvisible(
      before: seq<Arrival>, head: bytes, tail: bytes, after: seq<Arrival>)
    ensures Stream(before + [Data(head + tail)] + after) == Stream(before + [Data(head), Data(tail)] + after)
    ensures EndedByPeer(before + [Data(head + tail)] + after)
         == EndedByPeer(before + [Data(head), Data(tail)] + after)
  {
    var whole, cut := before + [Data(head + tail)] + after, before + [Data(head), Data(tail)] + after;
    if before == [] {
      assert whole[1..] == after;
      assert cut[1..] == [Data(tail)] + after;
      assert cut[1..][1..] == after;
      assert head + tail + Stream(after) == head + (tail + Stream(after));
    } else {
      assert whole[1..] == before[1..] + [Data(head + tail)] + after;
      assert cut[1..] == before[1..] + [Data(head), Data(tail)] + after;
      SplittingIsInvisible(before[1..], head, tail, after);
    }
  }
}
