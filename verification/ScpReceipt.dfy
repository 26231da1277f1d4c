/**
 * What the sink makes of a source script: for every file tree, either the
 * whole tree is stored, record by record and with one acknowledgement for
 * each awaited one, or the sink refuses the transfer. Which of the two is
 * decided by `Transferable`. The sink here is fed directly; queues, schedules
 * and deadlines come in with `ScpTransfer`, which rests on this module.
 */
module ScpReceipt {
  import opened Common
  import opened ScpText
  import opened ScpSink
  import opened ScpWire
  import opened ScpSource

  /** All the bytes a script sends. */
  function Sent(script: Script): bytes {
    if script == [] then []
    else (if script[0].Send? then script[0].data else []) + Sent(script[1..])
  }

  /** How many acknowledgements a script awaits. */
  function Awaits(script: Script): nat {
    if script == [] then 0
    else (if script[0].Expect? then 1 else 0) + Awaits(script[1..])
  }

  lemma {:induction false} SentAppend(a: Script, b: Script)
    ensures Sent(a + b) == Sent(a) + Sent(b)
    ensures Awaits(a + b) == Awaits(a) + Awaits(b)
    decreases |a|
  {
    if a == [] {
      assert a + b == b;
    } else {
      assert (a + b)[1..] == a[1..] + b;
      SentAppend(a[1..], b);
    }
  }

  /** What the sink has become once it has read everything the script sends. */
  function After(s: Sink, script: Script): (r: Sink)
    requires s.dirs != []
    ensures r.dirs != []
  {
    Feed(s, Sent(script))
  }

  lemma AfterAppend(s: Sink, a: Script, b: Script)
    requires s.dirs != []
    ensures After(s, a + b) == After(After(s, a), b)
  {
    SentAppend(a, b);
    FeedAppend(s, Sent(a), Sent(b));
  }

  /** Not in the middle of a control line. */
  predicate Settled(s: Sink) {
    s.phase.ReadingLine? ==> s.phase.line == []
  }

  /**
   * Whenever the script awaits an acknowledgement, the sink has sent one more
   * than were awaited before, or it has refused, once all sends are read. The
   * script neither awaits nor gives up in the middle of a control line.
   */
  predicate Paced(script: Script, s: Sink, pending: int)
    requires s.dirs != []
    decreases |script|
  {
    if script == [] then true
    else
      match script[0]
      case Abort => Settled(s)
      case Send(data) =>
        var s' := Feed(s, data);
        Paced(script[1..], s', pending + s'.acks - s.acks)
      case Expect => s.phase.Rejected? || (pending >= 1 && Settled(s) && Paced(script[1..], s, pending - 1))
  }

  lemma {:induction false} PacedAppend(a: Script, b: Script, s: Sink, pending: int)
    requires s.dirs != []
    requires Paced(a, s, pending)
    requires GoesOn(Abort in a, After(s, a), b, Surplus(a, s, pending))
    ensures Paced(a + b, s, pending)
    decreases |a|, 1
  {
    if a == [] {
      assert a + b == b;
      if s.phase.Rejected? {
        PacedWhenRejected(b, s, pending);
      }
    } else if a[0].Send? {
      PacedAppendSend(a, b, s, pending);
    } else {
      PacedAppendOther(a, b, s, pending);
    }
  }

  /** Unless the script before aborts or the sink `end` it leads to has refused, `b` is paced. */
  predicate GoesOn(aborts: bool, end: Sink, b: Script, pending: int)
    requires end.dirs != []
  {
    !aborts && !end.phase.Rejected? ==> Paced(b, end, pending)
  }

  /** Acknowledgements sent but not awaited after `a`. */
  function Surplus(a: Script, s: Sink, pending: int): int
    requires s.dirs != []
  {
    pending + After(s, a).acks - s.acks - Awaits(a)
  }

  lemma {:induction false} PacedAppendSend(a: Script, b: Script, s: Sink, pending: int)
    requires s.dirs != [] && a != [] && a[0].Send?
    requires Paced(a, s, pending) && GoesOn(Abort in a, After(s, a), b, Surplus(a, s, pending))
    ensures Paced(a + b, s, pending)
    decreases |a|, 0
  {
    var s' := Feed(s, a[0].data);
    AfterSend(s, a);
    AbortInTail(a);
    assert Surplus(a[1..], s', pending + s'.acks - s.acks) == Surplus(a, s, pending);
    PacedAppend(a[1..], b, s', pending + s'.acks - s.acks);
    PacedStep(a, b, s, pending);
  }

  lemma AbortInTail(a: Script)
    requires a != []
    ensures Abort in a <==> a[0] == Abort || Abort in a[1..]
  {
    assert a == [a[0]] + a[1..];
  }

  lemma {:induction false} PacedAppendOther(a: Script, b: Script, s: Sink, pending: int)
    requires s.dirs != [] && a != [] && !a[0].Send?
    requires Paced(a, s, pending) && GoesOn(Abort in a, After(s, a), b, Surplus(a, s, pending))
    ensures Paced(a + b, s, pending)
    decreases |a|, 0
  {
    if a[0].Expect? && !s.phase.Rejected? {
      AfterExpect(s, a);
      AbortInTail(a);
      assert Surplus(a[1..], s, pending - 1) == Surplus(a, s, pending);
      PacedAppend(a[1..], b, s, pending - 1);
    }
    PacedStep(a, b, s, pending);
  }

  /** Pacing looks at the first action and then at the rest. */
  lemma PacedStep(a: Script, b: Script, s: Sink, pending: int)
    requires s.dirs != [] && a != []
    requires
      match a[0]
      case Abort => Settled(s)
      case Send(data) => Paced(a[1..] + b, Feed(s, data), pending + Feed(s, data).acks - s.acks)
      case Expect => s.phase.Rejected? || (pending >= 1 && Settled(s) && Paced(a[1..] + b, s, pending - 1))
    ensures Paced(a + b, s, pending)
  {
    assert (a + b)[0] == a[0] && (a + b)[1..] == a[1..] + b;
  }

  lemma AfterSend(s: Sink, script: Script)
    requires s.dirs != [] && script != [] && script[0].Send?
    ensures After(s, script) == After(Feed(s, script[0].data), script[1..])
    ensures Awaits(script) == Awaits(script[1..])
  {
    FeedAppend(s, script[0].data, Sent(script[1..]));
  }

  lemma AfterExpect(s: Sink, script: Script)
    requires s.dirs != [] && script != [] && script[0].Expect?
    ensures After(s, script) == After(s, script[1..])
    ensures Awaits(script) == 1 + Awaits(script[1..])
  {
    assert Sent(script) == Sent(script[1..]);
  }

  lemma {:induction false} PacedWhenRejected(script: Script, s: Sink, pending: int)
    requires s.dirs != [] && s.phase.Rejected?
    ensures Paced(script, s, pending)
    decreases |script|
  {
    if script != [] {
      match script[0]
      case Send(data) =>
        RejectedForGood(s, data);
        PacedWhenRejected(script[1..], s, pending);
      case _ =>
    }
  }

  // ----- Which trees arrive -----

  predicate LineFits(kind: byte, mode: nat, size: nat, name: bytes) {
    |ControlLine(kind, mode % PERMISSION_BITS, size, name)| <= MAX_CONTROL_LINE
  }

  /** `recursiveSink` is the sink's own flag, `request` the source's. */
  predicate Transferable(t: Tree, name: bytes, request: Request, recursiveSink: bool, depth: nat) {
    match t
    case Link => false
    case Special(_) => false
    case File(mode, _, data) =>
      && depth < MAX_RECURSION_DEPTH
      && |data| <= MAX_FILE_SIZE
      && LineFits(LETTER_C, mode, |data|, name)
    case Dir(mode, _, entries) =>
      && request.recursive && recursiveSink
      && depth < MAX_RECURSION_DEPTH - 1
      && LineFits(LETTER_D, mode, 0, name)
      && TransferableEntries(entries, request, recursiveSink, depth + 1)
  }

  predicate TransferableEntries(entries: Entries, request: Request, recursiveSink: bool, depth: nat) {
    match entries
    case Nil => true
    case More(name, child, rest) =>
      && Sendable(name)
      && Transferable(child, name, request, recursiveSink, depth)
      && TransferableEntries(rest, request, recursiveSink, depth)
  }

  // ----- What they leave behind -----

  /** The entries a tree makes below `path`, modes masked to the permission bits. */
  function Flatten(path: Path, t: Tree): FileSystem
    decreases t
  {
    match t
    case File(mode, _, data) => map[path := FileEntry(mode % PERMISSION_BITS, data)]
    case Dir(mode, _, entries) =>
      map[path := DirEntry(mode % PERMISSION_BITS)] + FlattenEntries(path, entries)
    case _ => map[]
  }

  function FlattenEntries(path: Path, entries: Entries): FileSystem
    decreases entries
  {
    match entries
    case Nil => map[]
    case More(name, child, rest) => Flatten(path + [name], child) + FlattenEntries(path, rest)
  }

  ghost predicate FreeBelow(fs: FileSystem, path: Path) {
    forall p :: p in fs ==> !(path <= p)
  }

  lemma {:induction false} FlattenKeys(path: Path, t: Tree)
    ensures forall p :: p in Flatten(path, t) ==> path <= p
    decreases t
  {
    match t
    case Dir(_, _, entries) => FlattenEntriesKeys(path, entries);
    case _ =>
  }

  lemma {:induction false} FlattenEntriesKeys(path: Path, entries: Entries)
    ensures forall p :: p in FlattenEntries(path, entries) ==>
      path < p && p[|path|] in Names(entries)
    decreases entries
  {
    match entries
    case Nil =>
    case More(name, child, rest) =>
      FlattenKeys(path + [name], child);
      FlattenEntriesKeys(path, rest);
      forall p | p in FlattenEntries(path, entries)
        ensures path < p && p[|path|] in Names(entries)
      {
        if p in Flatten(path + [name], child) {
          assert path + [name] <= p;
          assert p[|path|] == (path + [name])[|path|] == name;
          assert p[..|path|] == (path + [name])[..|path|] == path;
        }
      }
  }

  // ----- The sink between two entries -----

  ghost predicate Ready(s: Sink, depth: nat) {
    && s.phase == ReadingLine([])
    && s.forced.None?
    && |s.dirs| == depth + 1
    && IsDir(s.fs, Last(s.dirs))
  }

  /** `r` differs from `s` by the stored entries and the acknowledgements sent for them. */
  ghost predicate Stored(s: Sink, r: Sink, stored: FileSystem, acks: nat) {
    && r.phase == ReadingLine([])
    && r.forced.None?
    && r.dirs == s.dirs && r.recursive == s.recursive
    && r.fs == s.fs + stored
    && r.acks == s.acks + acks
  }

  /**
   * The sink keeps pace with the script, and when the script has no `Abort`
   * all of it is stored or the sink has refused.
   */
  ghost predicate Delivers(s: Sink, script: Script, arrives: bool, stored: FileSystem)
    requires s.dirs != []
  {
    && Paced(script, s, 0)
    && (Abort !in script ==>
          if arrives then Stored(s, After(s, script), stored, Awaits(script))
          else Refused(s, After(s, script), Awaits(script)))
  }

  /** Refused before all the acknowledgements that are awaited were sent. */
  predicate Refused(s: Sink, r: Sink, acks: nat) {
    r.phase.Rejected? && r.acks < s.acks + acks
  }

  lemma DeliversAppend(
      s: Sink, a: Script, arrivesA: bool, storedA: FileSystem,
      b: Script, arrivesB: bool, storedB: FileSystem)
    requires s.dirs != [] && Delivers(s, a, arrivesA, storedA)
    requires Abort !in a && arrivesA ==> Delivers(After(s, a), b, arrivesB, storedB)
    ensures Delivers(s, a + b, arrivesA && arrivesB, storedA + storedB)
  {
    PacedAppend(a, b, s, 0);
    AfterAppend(s, a, b);
    SentAppend(a, b);
    if Abort !in a + b {
      AbortFree(a, b, []);
      assert a + (b + []) == a + b;
      if arrivesA {
        assert s.fs + storedA + storedB == s.fs + (storedA + storedB);
      } else {
        RejectedForGood(After(s, a), Sent(b));
      }
    }
  }

  lemma DeliversNothing(s: Sink)
    requires s.dirs != [] && s.phase == ReadingLine([]) && s.forced.None?
    ensures Delivers(s, [], true, map[])
  {
    assert s.fs + map[] == s.fs;
  }

  lemma DeliversAbort(s: Sink, arrives: bool, stored: FileSystem)
    requires s.dirs != [] && Settled(s)
    ensures Delivers(s, [Abort], arrives, stored)
  {
  }

  // ----- Records one by one -----

  lemma SentOfPair(data: bytes)
    ensures Sent([Send(data), Expect]) == data && Awaits([Send(data), Expect]) == 1
  {
    var script := [Send(data), Expect];
    assert script[1..] == [Expect];
    assert Awaits([Expect]) == 1 && Sent([Expect]) == [];
    assert data + [] == data;
  }

  lemma PairIsPaced(s: Sink, data: bytes)
    requires s.dirs != [] && Settled(Feed(s, data))
    requires Feed(s, data).phase.Rejected? || Feed(s, data).acks >= s.acks + 1
    ensures Paced([Send(data), Expect], s, 0)
    ensures After(s, [Send(data), Expect]) == Feed(s, data)
    ensures Awaits([Send(data), Expect]) == 1
  {
    SentOfPair(data);
    ExpectIsPaced(Feed(s, data), Feed(s, data).acks - s.acks);
    PacedSend(data, [Expect], s, 0);
    assert [Send(data)] + [Expect] == [Send(data), Expect];
  }

  lemma ExpectIsPaced(s: Sink, pending: int)
    requires s.dirs != [] && Settled(s) && (s.phase.Rejected? || pending >= 1)
    ensures Paced([Expect], s, pending)
  {
    assert Paced([Expect][1..], s, pending - 1);
  }

  predicate LineProcessed(s: Sink, line: bytes)
    requires s.dirs != []
  {
    && |line| >= 2 && line[|line| - 1] == NEWLINE
    && Feed(s, line) == if |line| <= MAX_CONTROL_LINE then ProcessLine(s, line) else Reject(s)
  }

  /** A control line that is too long is refused, any other is processed as a record. */
  lemma FeedControl(s: Sink, kind: byte, mode: nat, size: nat, name: bytes)
    requires s.dirs != [] && s.phase == ReadingLine([])
    requires kind != NEWLINE && ValidName(name)
    ensures LineProcessed(s, ControlLine(kind, mode, size, name))
  {
    var line := ControlLine(kind, mode, size, name);
    ControlLineShape(kind, mode, size, name);
    if |line| <= MAX_CONTROL_LINE {
      FeedOneLine(s, line, []);
    } else {
      assert forall i :: 0 <= i < MAX_CONTROL_LINE ==> line[..MAX_CONTROL_LINE][i] == line[..|line| - 1][i];
      FeedWithoutLine(s, line);
    }
  }

  lemma FeedTimes(s: Sink, modified: nat, accessed: nat)
    requires s.dirs != [] && s.phase == ReadingLine([])
    requires modified <= U64_MAX && accessed <= U64_MAX
    ensures Feed(s, TimesLine(modified, accessed)) == ProcessTimes(s)
  {
    TimesAccepted(modified, accessed);
    TimesLineIsLine(modified, accessed);
    FeedOneLine(s, TimesLine(modified, accessed), []);
  }

  /** A time record is acknowledged and changes nothing else. */
  lemma AfterTimes(s: Sink, stamp: Stamp, preserve: bool)
    requires s.dirs != [] && s.phase == ReadingLine([])
    requires StampFits(stamp)
    ensures
      var times := TimesScript(stamp, preserve);
      && Paced(times, s, 0) && Abort !in times
      && After(s, times) == (if preserve then ProcessTimes(s) else s)
      && Awaits(times) == if preserve then 1 else 0
  {
    if preserve {
      AfterTimesLine(s, Modified(stamp), Accessed(stamp));
    }
  }

  lemma AfterTimesLine(s: Sink, modified: nat, accessed: nat)
    requires s.dirs != [] && s.phase == ReadingLine([])
    requires modified <= U64_MAX && accessed <= U64_MAX
    ensures
      var times := [Send(TimesLine(modified, accessed)), Expect];
      && Paced(times, s, 0) && Abort !in times && After(s, times) == ProcessTimes(s) && Awaits(times) == 1
  {
    FeedTimes(s, modified, accessed);
    PairIsPaced(s, TimesLine(modified, accessed));
  }

  lemma {:induction false} DecimalIsShort(n: nat, places: nat)
    requires places >= 1 && n < Power10(places)
    ensures |Decimal(n)| <= places
    decreases places
  {
    if n >= 10 {
      DecimalIsShort(n / 10, places - 1);
    }
  }

  function Power10(places: nat): nat {
    if places == 0 then 1 else 10 * Power10(places - 1)
  }

  lemma TwentyPlaces(n: nat)
    requires n <= U64_MAX
    ensures |Decimal(n)| <= 20
  {
    assert Power10(5) == 100000;
    assert Power10(10) == 10000000000;
    assert Power10(15) == 1000000000000000;
    assert Power10(20) == 100000000000000000000;
    DecimalIsShort(n, 20);
  }

  lemma TimesLineIsLine(modified: nat, accessed: nat)
    requires modified <= U64_MAX && accessed <= U64_MAX
    ensures IsLine(TimesLine(modified, accessed))
  {
    TwentyPlaces(modified);
    TwentyPlaces(accessed);
    TwentyPlaces(0);
    TimesTextIsLine(Decimal(modified), Decimal(0), Decimal(accessed));
  }

  lemma TimesTextIsLine(modified: bytes, zero: bytes, accessed: bytes)
    requires |modified| <= 20 && |zero| <= 20 && |accessed| <= 20
    requires NEWLINE !in modified && NEWLINE !in zero && NEWLINE !in accessed
    ensures IsLine(Record(LETTER_T, TimesText(modified, zero, accessed)))
  {
    var text := TimesText(modified, zero, accessed);
    var line := Record(LETTER_T, text);
    assert line[..|line| - 1] == [LETTER_T] + text;
  }

  lemma EnterLine(s: Sink, line: bytes, mode: nat, name: bytes)
    requires s.dirs != [] && s.phase == ReadingLine([]) && s.forced.None? && IsDir(s.fs, Last(s.dirs))
    requires ParseControl(line, LETTER_D) == Some(Control(mode, 0, name)) && ValidName(name)
    requires Last(s.dirs) + [name] !in s.fs
    ensures ProcessEnter(s, line)
         == if s.recursive && |s.dirs| < MAX_RECURSION_DEPTH then
              Entered(s, Last(s.dirs) + [name], mode)
            else Reject(s)
  {
    var path := Last(s.dirs) + [name];
    assert path[..|path| - 1] == Last(s.dirs);
  }

  lemma FeedEnterLine(s: Sink, line: bytes, mode: nat, name: bytes)
    requires s.dirs != [] && s.phase == ReadingLine([]) && s.forced.None? && IsDir(s.fs, Last(s.dirs))
    requires LineProcessed(s, line) && line[0] == LETTER_D
    requires ParseControl(line, LETTER_D) == Some(Control(mode, 0, name)) && ValidName(name)
    requires Last(s.dirs) + [name] !in s.fs
    ensures Feed(s, line)
         == if |line| <= MAX_CONTROL_LINE && s.recursive && |s.dirs| < MAX_RECURSION_DEPTH then
              Entered(s, Last(s.dirs) + [name], mode)
            else Reject(s)
  {
    EnterLine(s, line, mode, name);
  }

  lemma FeedEnter(s: Sink, mode: nat, name: bytes)
    requires s.dirs != [] && s.phase == ReadingLine([]) && s.forced.None? && IsDir(s.fs, Last(s.dirs))
    requires Sendable(name) && mode < PERMISSION_BITS
    requires Last(s.dirs) + [name] !in s.fs
    ensures
      var line := ControlLine(LETTER_D, mode, 0, name);
      Feed(s, line)
      == if |line| <= MAX_CONTROL_LINE && s.recursive && |s.dirs| < MAX_RECURSION_DEPTH then
           Entered(s, Last(s.dirs) + [name], mode)
         else Reject(s)
  {
    var line := ControlLine(LETTER_D, mode, 0, name);
    MaskedRoundTrip(LETTER_D, mode, 0, name);
    FeedControl(s, LETTER_D, mode, 0, name);
    FeedEnterLine(s, line, mode, name);
  }

  lemma EnterRefusedOrMade(s: Sink, mode: nat, name: bytes, depth: nat)
    requires s.dirs != [] && Ready(s, depth) && Sendable(name)
    requires Last(s.dirs) + [name] !in s.fs
    ensures Paced(EnterScript(mode, name), s, 0)
    ensures Abort !in EnterScript(mode, name) && Awaits(EnterScript(mode, name)) == 1
    ensures After(s, EnterScript(mode, name))
         == Feed(s, ControlLine(LETTER_D, mode % PERMISSION_BITS, 0, name))
    ensures After(s, EnterScript(mode, name))
         == if LineFits(LETTER_D, mode, 0, name) && s.recursive && depth < MAX_RECURSION_DEPTH - 1 then
              Entered(s, Last(s.dirs) + [name], mode % PERMISSION_BITS)
            else Reject(s)
  {
    FeedEnter(s, mode % PERMISSION_BITS, name);
    PairIsPaced(s, ControlLine(LETTER_D, mode % PERMISSION_BITS, 0, name));
  }

  lemma LeaveReturns(s: Sink, depth: nat)
    requires s.phase == ReadingLine([]) && |s.dirs| == depth + 2
    ensures Paced(LEAVE, s, 0) && Awaits(LEAVE) == 1
    ensures After(s, LEAVE) == ProcessLeave(s)
  {
    FeedOneLine(s, [LETTER_E, NEWLINE], []);
    PairIsPaced(s, [LETTER_E, NEWLINE]);
  }

  lemma FeedCopyLine(s: Sink, line: bytes, mode: nat, size: nat, name: bytes)
    requires s.dirs != [] && s.phase == ReadingLine([])
    requires LineProcessed(s, line) && line[0] == LETTER_C
    requires ParseControl(line, LETTER_C) == Some(Control(mode, size, name)) && ValidName(name)
    requires size <= MAX_FILE_SIZE
    ensures Feed(s, line)
         == if |line| <= MAX_CONTROL_LINE then Announced(s, CopyPath(s, name), mode, size) else Reject(s)
  {
  }

  lemma FeedCopy(s: Sink, mode: nat, size: nat, name: bytes)
    requires s.dirs != [] && s.phase == ReadingLine([])
    requires Sendable(name) && mode < PERMISSION_BITS && size <= MAX_FILE_SIZE
    ensures
      var line := ControlLine(LETTER_C, mode, size, name);
      Feed(s, line)
      == if |line| <= MAX_CONTROL_LINE then Announced(s, CopyPath(s, name), mode, size) else Reject(s)
  {
    var line := ControlLine(LETTER_C, mode, size, name);
    MaskedRoundTrip(LETTER_C, mode, size, name);
    FeedControl(s, LETTER_C, mode, size, name);
    FeedCopyLine(s, line, mode, size, name);
  }

  /** A place for a new file, or a file that may be replaced. */
  predicate Writable(fs: FileSystem, path: Path) {
    path != [] && !IsDir(fs, path) && IsDir(fs, path[..|path| - 1])
  }

  /** The data and its zero byte store the file and earn the second acknowledgement. */
  lemma ContentStored(s: Sink, path: Path, mode: nat, data: bytes)
    requires s.dirs != [] && s.phase == DataPhase(path, mode, |data|, [])
    requires Writable(s.fs, path)
    ensures Paced([Send(data)] + [Send([0]), Expect], s, 0)
    ensures After(s, [Send(data)] + [Send([0]), Expect])
         == Accept(s.(fs := s.fs[path := FileEntry(mode, data)]))
    ensures Awaits([Send(data)] + [Send([0]), Expect]) == 1
  {
    var a, b := [Send(data)], [Send([0]), Expect];
    SentOfOne(data);
    FeedAllData(s, data, []);
    var s' := s.(phase := ReadingZero(path, mode, data));
    ZeroStored(s', path, mode, data);
    PairIsPaced(s', [0]);
    PacedSend(data, b, s, 0);
    AfterAppend(s, a, b);
    SentAppend(a, b);
  }

  lemma ZeroStored(s: Sink, path: Path, mode: nat, data: bytes)
    requires s.dirs != [] && s.phase == ReadingZero(path, mode, data)
    requires Writable(s.fs, path)
    ensures Feed(s, [0]) == Accept(s.(fs := s.fs[path := FileEntry(mode, data)]))
  {
    assert Feed(s, [0]) == Step(s, 0);
  }

  lemma SentOfOne(data: bytes)
    ensures Sent([Send(data)]) == data && Awaits([Send(data)]) == 0
  {
    assert data + [] == data;
  }

  lemma PacedSend(data: bytes, script: Script, s: Sink, pending: int)
    requires s.dirs != []
    requires Paced(script, Feed(s, data), pending + Feed(s, data).acks - s.acks)
    ensures Paced([Send(data)] + script, s, pending)
  {
    assert ([Send(data)] + script)[1..] == script;
  }

  lemma FileArrives(s: Sink, line: bytes, path: Path, mode: nat, data: bytes)
    requires s.dirs != [] && s.phase == ReadingLine([])
    requires Writable(s.fs, path)
    requires Feed(s, line) == Announced(s, path, mode, |data|)
    ensures Delivers(s, [Send(line), Expect] + ([Send(data)] + [Send([0]), Expect]), true,
                     map[path := FileEntry(mode, data)])
  {
    var head, tail := [Send(line), Expect], [Send(data)] + [Send([0]), Expect];
    PairIsPaced(s, line);
    ContentStored(Feed(s, line), path, mode, data);
    FileIsPaced(s, line, path, mode, data);
    AfterAppend(s, head, tail);
    SentAppend(head, tail);
    assert s.fs[path := FileEntry(mode, data)] == s.fs + map[path := FileEntry(mode, data)];
  }

  lemma FileIsPaced(s: Sink, line: bytes, path: Path, mode: nat, data: bytes)
    requires s.dirs != [] && s.phase == ReadingLine([])
    requires Writable(s.fs, path)
    requires Feed(s, line) == Announced(s, path, mode, |data|)
    ensures Paced([Send(line), Expect] + ([Send(data)] + [Send([0]), Expect]), s, 0)
  {
    PairIsPaced(s, line);
    ContentStored(Feed(s, line), path, mode, data);
    PacedAppend([Send(line), Expect], [Send(data)] + [Send([0]), Expect], s, 0);
  }

  lemma RefusedDelivers(s: Sink, line: bytes, rest: Script, stored: FileSystem)
    requires s.dirs != [] && Feed(s, line) == Reject(s)
    ensures Delivers(s, [Send(line), Expect] + rest, false, stored)
  {
    var head := [Send(line), Expect];
    PairIsPaced(s, line);
    PacedAppend(head, rest, s, 0);
    AfterAppend(s, head, rest);
    RejectedForGood(Feed(s, line), Sent(rest));
  }

  /** A file is stored below the current directory, or at the forced path whatever its name. */
  lemma FileDelivered(s: Sink, mode: nat, data: bytes, name: bytes)
    requires s.dirs != [] && s.phase == ReadingLine([])
    requires Sendable(name) && |data| <= MAX_FILE_SIZE
    requires Writable(s.fs, CopyPath(s, name))
    ensures Delivers(s, FileScript(mode, data, name), LineFits(LETTER_C, mode, |data|, name),
                     map[CopyPath(s, name) := FileEntry(mode % PERMISSION_BITS, data)])
  {
    var m := mode % PERMISSION_BITS;
    var path := CopyPath(s, name);
    var line := ControlLine(LETTER_C, m, |data|, name);
    FeedCopy(s, m, |data|, name);
    assert FileScript(mode, data, name) == [Send(line), Expect] + ([Send(data)] + [Send([0]), Expect]);
    if LineFits(LETTER_C, mode, |data|, name) {
      FileArrives(s, line, path, m, data);
    } else {
      RefusedDelivers(s, line, [Send(data)] + [Send([0]), Expect], map[path := FileEntry(m, data)]);
    }
  }

  // ----- Whole trees -----

  ghost predicate FreeFor(fs: FileSystem, path: Path, entries: Entries) {
    forall name :: name in Names(entries) ==> FreeBelow(fs, path + [name])
  }

  /**
   * For every tree at every depth, the sink keeps pace with its script and,
   * unless the source itself gives up, stores exactly the tree when it is
   * transferable and refuses when it is not.
   */
  lemma {:induction false} EntryDelivered(s: Sink, t: Tree, name: bytes, request: Request, depth: nat)
    requires s.dirs != [] && Ready(s, depth) && Sendable(name) && Sound(t)
    requires FreeBelow(s.fs, Last(s.dirs) + [name])
    ensures Delivers(s, EntryScript(t, name, request, depth),
                     Transferable(t, name, request, s.recursive, depth),
                     Flatten(Last(s.dirs) + [name], t))
    decreases t
  {
    var path := Last(s.dirs) + [name];
    var arrives := Transferable(t, name, request, s.recursive, depth);
    if depth >= MAX_RECURSION_DEPTH || t.Link? {
      DeliversAbort(s, arrives, Flatten(path, t));
    } else {
      TimedBodyDelivered(s, t, name, request, depth);
    }
  }

  /** Records that are acknowledged and store nothing, then something that is delivered. */
  lemma DeliversAfter(s: Sink, times: Script, body: Script, arrives: bool, stored: FileSystem)
    requires s.dirs != [] && Paced(times, s, 0) && Abort !in times
    requires
      var s1 := After(s, times);
      && s1.fs == s.fs && s1.dirs == s.dirs && s1.recursive == s.recursive
      && s1.acks == s.acks + Awaits(times)
      && Delivers(s1, body, arrives, stored)
    ensures Delivers(s, times + body, arrives, stored)
  {
    PacedAppend(times, body, s, 0);
    AfterAppend(s, times, body);
    SentAppend(times, body);
    if Abort !in times + body {
      assert forall i :: 0 <= i < |body| ==> body[i] == (times + body)[|times| + i];
    }
  }

  lemma TimedBodyDelivered(s: Sink, t: Tree, name: bytes, request: Request, depth: nat)
    requires s.dirs != [] && Ready(s, depth) && Sendable(name) && Sound(t)
    requires FreeBelow(s.fs, Last(s.dirs) + [name])
    requires depth < MAX_RECURSION_DEPTH && !t.Link?
    ensures Delivers(s, EntryScript(t, name, request, depth),
                     Transferable(t, name, request, s.recursive, depth),
                     Flatten(Last(s.dirs) + [name], t))
    decreases t, 2
  {
    var times := TimesScript(t.stamp, request.preserveTimes);
    var body := Body(t, name, request, depth);
    AfterTimes(s, t.stamp, request.preserveTimes);
    BodyDelivered(After(s, times), t, name, request, depth);
    EntryScriptIs(t, name, request, depth);
    DeliversAfter(
      s, times, body, Transferable(t, name, request, s.recursive, depth), Flatten(Last(s.dirs) + [name], t));
  }

  lemma EntryScriptIs(t: Tree, name: bytes, request: Request, depth: nat)
    requires depth < MAX_RECURSION_DEPTH && !t.Link?
    ensures EntryScript(t, name, request, depth)
         == TimesScript(t.stamp, request.preserveTimes) + Body(t, name, request, depth)
  {
  }

  /** The script of an entry after its time record. */
  function Body(t: Tree, name: bytes, request: Request, depth: nat): Script
    requires !t.Link?
  {
    match t
    case Special(_) => [Abort]
    case File(mode, _, data) => FileScript(mode, data, name)
    case Dir(mode, _, entries) =>
      if !request.recursive then [Abort]
      else EnterScript(mode, name) + (EntriesScript(entries, request, depth + 1) + LEAVE)
  }

  lemma {:induction false} BodyDelivered(s: Sink, t: Tree, name: bytes, request: Request, depth: nat)
    requires s.dirs != [] && Ready(s, depth) && Sendable(name) && Sound(t)
    requires FreeBelow(s.fs, Last(s.dirs) + [name])
    requires depth < MAX_RECURSION_DEPTH && !t.Link?
    ensures Delivers(s, Body(t, name, request, depth),
                     Transferable(t, name, request, s.recursive, depth),
                     Flatten(Last(s.dirs) + [name], t))
    decreases t, 1
  {
    var path := Last(s.dirs) + [name];
    if t.Dir? && request.recursive {
      DirectoryDelivered(s, t, name, request, depth);
    } else if t.File? && |t.data| <= MAX_FILE_SIZE {
      assert path[..|path| - 1] == Last(s.dirs);
      FileDelivered(s, t.mode, t.data, name);
    } else {
      DeliversAbort(s, Transferable(t, name, request, s.recursive, depth), Flatten(path, t));
    }
  }

  lemma {:induction false} DirectoryDelivered(s: Sink, t: Tree, name: bytes, request: Request, depth: nat)
    requires s.dirs != [] && Ready(s, depth) && Sendable(name) && Sound(t)
    requires FreeBelow(s.fs, Last(s.dirs) + [name])
    requires t.Dir? && request.recursive && depth < MAX_RECURSION_DEPTH
    ensures Delivers(s, EnterScript(t.mode, name) + (EntriesScript(t.entries, request, depth + 1) + LEAVE),
                     Transferable(t, name, request, s.recursive, depth),
                     Flatten(Last(s.dirs) + [name], t))
    decreases t, 0
  {
    var path := Last(s.dirs) + [name];
    var m := t.mode % PERMISSION_BITS;
    var inside := EntriesScript(t.entries, request, depth + 1);
    EnterRefusedOrMade(s, t.mode, name, depth);
    if LineFits(LETTER_D, t.mode, 0, name) && s.recursive && depth < MAX_RECURSION_DEPTH - 1 {
      var s1 := Entered(s, path, m);
      assert FreeFor(s1.fs, path, t.entries);
      EntriesDelivered(s1, t.entries, request, depth + 1);
      Enclosed(s, EnterScript(t.mode, name), path, m, inside,
               TransferableEntries(t.entries, request, s.recursive, depth + 1),
               FlattenEntries(path, t.entries), depth);
    } else {
      RefusedDelivers(s, ControlLine(LETTER_D, m, 0, name), inside + LEAVE, Flatten(path, t));
    }
  }

  /** A directory record, what lies inside and the closing record, put together. */
  lemma Enclosed(s: Sink, enter: Script, path: Path, mode: nat, inside: Script,
                 arrives: bool, stored: FileSystem, depth: nat)
    requires s.dirs != [] && Ready(s, depth) && path !in s.fs
    requires Paced(enter, s, 0) && Abort !in enter && Awaits(enter) == 1
    requires After(s, enter) == Entered(s, path, mode)
    requires Delivers(Entered(s, path, mode), inside, arrives, stored)
    ensures Delivers(s, enter + (inside + LEAVE), arrives, map[path := DirEntry(mode)] + stored)
  {
    var s1 := Entered(s, path, mode);
    EnclosedEnd(s1, inside, arrives, stored, depth);
    PacedAppend(enter, inside + LEAVE, s, 0);
    AfterAppend(s, enter, inside + LEAVE);
    SentAppend(enter, inside + LEAVE);
    var script := enter + (inside + LEAVE);
    if Abort !in script {
      AbortFree(enter, inside, LEAVE);
      assert s.fs[path := DirEntry(mode)] + stored == s.fs + (map[path := DirEntry(mode)] + stored);
    }
  }

  lemma EnclosedEnd(s: Sink, inside: Script, arrives: bool, stored: FileSystem, depth: nat)
    requires s.dirs != [] && Ready(s, depth + 1)
    requires Delivers(s, inside, arrives, stored)
    ensures Paced(inside + LEAVE, s, 0) && Awaits(inside + LEAVE) == Awaits(inside) + 1
    ensures Abort !in inside ==>
      if arrives then
        && After(s, inside + LEAVE) == ProcessLeave(After(s, inside))
        && Stored(s, After(s, inside), stored, Awaits(inside))
      else Refused(s, After(s, inside + LEAVE), Awaits(inside))
  {
    var s2 := After(s, inside);
    AfterAppend(s, inside, LEAVE);
    SentAppend(inside, LEAVE);
    SentOfPair([LETTER_E, NEWLINE]);
    if Abort !in inside {
      if arrives {
        LeaveReturns(s2, depth);
      } else {
        RejectedForGood(s2, Sent(LEAVE));
      }
    }
    PacedAppend(inside, LEAVE, s, 0);
  }

  lemma AbortFree(a: Script, b: Script, c: Script)
    requires Abort !in a + (b + c)
    ensures Abort !in a && Abort !in b && Abort !in c
  {
    var all := a + (b + c);
    assert forall i :: 0 <= i < |a| ==> a[i] == all[i];
    assert forall i :: 0 <= i < |b| ==> b[i] == all[|a| + i];
    assert forall i :: 0 <= i < |c| ==> c[i] == all[|a| + |b| + i];
  }

  lemma {:induction false} EntriesDelivered(s: Sink, entries: Entries, request: Request, depth: nat)
    requires s.dirs != [] && Ready(s, depth) && SoundEntries(entries)
    requires FreeFor(s.fs, Last(s.dirs), entries)
    ensures Delivers(s, EntriesScript(entries, request, depth),
                     TransferableEntries(entries, request, s.recursive, depth),
                     FlattenEntries(Last(s.dirs), entries))
    decreases entries
  {
    match entries
    case Nil => DeliversNothing(s);
    case More(name, child, rest) =>
      var path := Last(s.dirs);
      var first := if Sendable(name) then EntryScript(child, name, request, depth) else [Abort];
      var arrives := Sendable(name) && Transferable(child, name, request, s.recursive, depth);
      if Sendable(name) {
        EntryDelivered(s, child, name, request, depth);
      } else {
        DeliversAbort(s, arrives, Flatten(path + [name], child));
      }
      if Abort !in first && arrives {
        var s' := After(s, first);
        StillFree(s.fs, path, name, child, rest);
        assert IsDir(s'.fs, path) by { FlattenKeys(path + [name], child); }
        EntriesDelivered(s', rest, request, depth);
      }
      DeliversAppend(s, first, arrives, Flatten(path + [name], child),
                     EntriesScript(rest, request, depth),
                     TransferableEntries(rest, request, s.recursive, depth),
                     FlattenEntries(path, rest));
  }

  /** Storing one entry leaves the places of its siblings free. */
  lemma StillFree(fs: FileSystem, path: Path, name: bytes, child: Tree, rest: Entries)
    requires FreeFor(fs, path, More(name, child, rest)) && name !in Names(rest)
    ensures FreeFor(fs + Flatten(path + [name], child), path, rest)
  {
    FlattenKeys(path + [name], child);
    forall other, p | other in Names(rest) && p in fs + Flatten(path + [name], child)
      ensures !(path + [other] <= p)
    {
      if p in Flatten(path + [name], child) {
        assert path + [name] <= p;
        assert p[|path|] == (path + [name])[|path|] == name;
        assert (path + [other])[|path|] == other != name;
      } else {
        assert other in Names(More(name, child, rest));
      }
    }
  }

  // ----- A single file for a forced path -----

  /** The sink waits for one file whose place is already decided. */
  ghost predicate AwaitsFile(s: Sink, path: Path) {
    && s.dirs != [] && s.phase == ReadingLine([])
    && s.forced == Some(path) && Writable(s.fs, path)
  }

  function StoredFile(path: Path, t: Tree): FileSystem {
    if t.File? then map[path := FileEntry(t.mode % PERMISSION_BITS, t.data)] else map[]
  }

  /** Only a file is taken: a directory record is refused. */
  lemma ForcedBody(s: Sink, path: Path, t: Tree, name: bytes, request: Request)
    requires AwaitsFile(s, path) && Sendable(name) && !t.Link?
    ensures Delivers(s, Body(t, name, request, 0),
                     t.File? && Transferable(t, name, request, s.recursive, 0), StoredFile(path, t))
  {
    if t.File? && |t.data| <= MAX_FILE_SIZE {
      FileDelivered(s, t.mode, t.data, name);
    } else if t.Dir? && request.recursive {
      var line := ControlLine(LETTER_D, t.mode % PERMISSION_BITS, 0, name);
      FeedControl(s, LETTER_D, t.mode % PERMISSION_BITS, 0, name);
      ControlLineShape(LETTER_D, t.mode % PERMISSION_BITS, 0, name);
      RefusedDelivers(s, line, EntriesScript(t.entries, request, 1) + LEAVE, StoredFile(path, t));
    } else {
      DeliversAbort(s, t.File? && Transferable(t, name, request, s.recursive, 0), StoredFile(path, t));
    }
  }

  /** For every tree: a sink with a forced path stores a transferable file there and takes nothing else. */
  lemma ForcedEntryDelivered(s: Sink, path: Path, t: Tree, name: bytes, request: Request)
    requires AwaitsFile(s, path) && Sendable(name) && Sound(t)
    ensures Delivers(s, EntryScript(t, name, request, 0),
                     t.File? && Transferable(t, name, request, s.recursive, 0), StoredFile(path, t))
  {
    var arrives := t.File? && Transferable(t, name, request, s.recursive, 0);
    if t.Link? {
      DeliversAbort(s, arrives, StoredFile(path, t));
    } else {
      var times, body := TimesScript(t.stamp, request.preserveTimes), Body(t, name, request, 0);
      AfterTimes(s, t.stamp, request.preserveTimes);
      ForcedBody(After(s, times), path, t, name, request);
      EntryScriptIs(t, name, request, 0);
      DeliversAfter(s, times, body, arrives, StoredFile(path, t));
    }
  }
}
