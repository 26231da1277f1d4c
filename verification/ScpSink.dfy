/**
 * The receiving side of the SCP protocol as a machine over single bytes:
 * control lines, file data and the closing zero byte of a file drive a stack
 * of directories and a file system. The loops of the program, in `ScpWire`,
 * are proved equal to it. Its invariants hold for every byte stream, whoever
 * sends it.
 */
module ScpSink {
  import opened Common
  import opened ScpText

  // ----- The file system below the fixture root -----

  type Path = seq<bytes>

  datatype Entry = DirEntry(mode: nat) | FileEntry(mode: nat, data: bytes)

  type FileSystem = map<Path, Entry>

  predicate IsDir(fs: FileSystem, path: Path) {
    path in fs && fs[path].DirEntry?
  }

  /** The root is a directory and every entry lies in one. */
  ghost predicate WellFormed(fs: FileSystem) {
    && IsDir(fs, [])
    && forall p {:trigger ParentIsDir(fs, p)} :: p in fs ==> ParentIsDir(fs, p)
  }

  ghost predicate ParentIsDir(fs: FileSystem, p: Path) {
    p != [] ==> IsDir(fs, p[..|p| - 1])
  }

  /** `create_dir` followed by `set_permissions`. */
  function CreateDir(fs: FileSystem, path: Path, mode: nat): Option<FileSystem> {
    if path == [] || path in fs || !IsDir(fs, path[..|path| - 1]) then None
    else Some(fs[path := DirEntry(mode)])
  }

  /** `fs::write` followed by `set_permissions`: creates or replaces a regular file. */
  function WriteFile(fs: FileSystem, path: Path, mode: nat, data: bytes): Option<FileSystem> {
    if path == [] || IsDir(fs, path) || !IsDir(fs, path[..|path| - 1]) then None
    else Some(fs[path := FileEntry(mode, data)])
  }

  // ----- The request and its target -----

  datatype Component = Normal(name: bytes) | CurDir | ParentDir | RootDir

  datatype Request = Request(
    recursive: bool, preserveTimes: bool, targetIsDirectory: bool, target: seq<Component>)

  predicate ValidRelative(target: seq<Component>) {
    target != [] && ParentDir !in target && RootDir !in target
  }

  function Normals(target: seq<Component>): Path {
    if target == [] then []
    else (if target[0].Normal? then [target[0].name] else []) + Normals(target[1..])
  }

  datatype SinkTarget = SinkTarget(directory: Path, forced: Option<Path>)

  /** Existing directory, existing or new file, or a new directory when one is asked for. */
  function ResolveSinkTarget(fs: FileSystem, request: Request, newDirMode: nat)
    : Option<(FileSystem, SinkTarget)>
  {
    var path := Normals(request.target);
    if !ValidRelative(request.target) then None
    else if IsDir(fs, path) then Some((fs, SinkTarget(path, None)))
    else if path == [] || !IsDir(fs, path[..|path| - 1]) then None
    else if !request.targetIsDirectory then Some((fs, SinkTarget(path[..|path| - 1], Some(path))))
    else
      match CreateDir(fs, path, newDirMode)
      case None => None
      case Some(fs') => Some((fs', SinkTarget(path, None)))
  }

  // ----- The machine -----

  /** Records accepted so far: T, D, E and C. */
  datatype Tally = Tally(times: nat, enters: nat, leaves: nat, copies: nat)

  const NO_RECORDS := Tally(0, 0, 0, 0)

  datatype Phase =
    | ReadingLine(line: bytes)
    | ReadingData(path: Path, mode: nat, size: nat, data: bytes)
    | ReadingZero(path: Path, mode: nat, data: bytes)
    | Rejected

  /** `acks` counts the zero bytes sent to the peer. */
  datatype Sink = Sink(
    fs: FileSystem, dirs: seq<Path>, forced: Option<Path>, recursive: bool,
    phase: Phase, acks: nat, tally: Tally)

  function Start(fs: FileSystem, request: Request, newDirMode: nat): Option<Sink> {
    match ResolveSinkTarget(fs, request, newDirMode)
    case None => None
    case Some((fs', target)) =>
      Some(Sink(fs', [target.directory], target.forced, request.recursive, ReadingLine([]), 1, NO_RECORDS))
  }

  function Reject(s: Sink): Sink {
    s.(phase := Rejected)
  }

  /** Acknowledges a record and goes on with the next control line. */
  function Accept(s: Sink): Sink {
    s.(phase := ReadingLine([]), acks := s.acks + 1)
  }

  function Step(s: Sink, b: byte): Sink
    requires s.dirs != []
  {
    match s.phase
    case Rejected => s
    case ReadingLine(line) =>
      if b == NEWLINE then ProcessLine(s, line + [b])
      else if |line| + 1 >= MAX_CONTROL_LINE then Reject(s)
      else s.(phase := ReadingLine(line + [b]))
    case ReadingData(path, mode, size, data) => s.(phase := DataPhase(path, mode, size, data + [b]))
    case ReadingZero(path, mode, data) =>
      if b != 0 then Reject(s)
      else
        match WriteFile(s.fs, path, mode, data)
        case None => Reject(s)
        case Some(fs') => s.(fs := fs', phase := ReadingLine([]), acks := s.acks + 1)
  }

  function DataPhase(path: Path, mode: nat, size: nat, data: bytes): Phase {
    if |data| < size then ReadingData(path, mode, size, data) else ReadingZero(path, mode, data)
  }

  /** One complete control line, newline included. */
  function ProcessLine(s: Sink, line: bytes): Sink
    requires s.dirs != [] && line != [] && line[|line| - 1] == NEWLINE
  {
    if line[0] == LETTER_T then if ParseTimes(line) then ProcessTimes(s) else Reject(s)
    else if line[0] == LETTER_D then ProcessEnter(s, line)
    else if line == [LETTER_E, NEWLINE] then
      if |s.dirs| == 1 then Reject(s) else ProcessLeave(s)
    else if line[0] == LETTER_C then ProcessCopy(s, line)
    else Reject(s)
  }

  function ProcessTimes(s: Sink): Sink {
    Accept(s.(tally := s.tally.(times := s.tally.times + 1)))
  }

  function ProcessLeave(s: Sink): Sink
    requires s.dirs != []
  {
    Accept(s.(dirs := s.dirs[..|s.dirs| - 1], tally := s.tally.(leaves := s.tally.leaves + 1)))
  }

  function ProcessEnter(s: Sink, line: bytes): Sink
    requires s.dirs != []
  {
    if s.forced.Some? || !s.recursive || |s.dirs| >= MAX_RECURSION_DEPTH then Reject(s)
    else
      match ParseControl(line, LETTER_D)
      case None => Reject(s)
      case Some(control) =>
        if control.size != 0 || PortableName(control.name).None? then Reject(s)
        else
          var path := Last(s.dirs) + [PortableName(control.name).value];
          if CreateDir(s.fs, path, control.mode).None? then Reject(s) else Entered(s, path, control.mode)
  }

  /** A directory is made and entered. */
  function Entered(s: Sink, path: Path, mode: nat): Sink {
    Accept(s.(fs := s.fs[path := DirEntry(mode)], dirs := s.dirs + [path],
              tally := s.tally.(enters := s.tally.enters + 1)))
  }

  function ProcessCopy(s: Sink, line: bytes): Sink
    requires s.dirs != []
  {
    match ParseControl(line, LETTER_C)
    case None => Reject(s)
    case Some(control) =>
      if control.size > MAX_FILE_SIZE || PortableName(control.name).None? then Reject(s)
      else
        Announced(s, CopyPath(s, PortableName(control.name).value), control.mode, control.size)
  }

  /** A file is announced: its record is acknowledged and its data come next. */
  function Announced(s: Sink, path: Path, mode: nat, size: nat): Sink {
    s.(forced := None, phase := DataPhase(path, mode, size, []), acks := s.acks + 1,
       tally := s.tally.(copies := s.tally.copies + 1))
  }

  /** A forced file name is used once, whatever name the record carries. */
  function CopyPath(s: Sink, name: bytes): Path
    requires s.dirs != []
  {
    if s.forced.Some? then s.forced.value else Last(s.dirs) + [name]
  }

  function Last(dirs: seq<Path>): Path
    requires dirs != []
  {
    dirs[|dirs| - 1]
  }

  function Feed(s: Sink, input: bytes): (r: Sink)
    requires s.dirs != []
    ensures r.dirs != []
    decreases |input|
  {
    if input == [] then s else
    StackNeverEmpty(s, input[0]);
    Feed(Step(s, input[0]), input[1..])
  }

  /** The run ended well: between records, back in the target, nothing left to store. */
  predicate Completed(s: Sink) {
    s.phase == ReadingLine([]) && |s.dirs| == 1 && s.forced.None?
  }

  lemma StackNeverEmpty(s: Sink, b: byte)
    requires s.dirs != []
    ensures Step(s, b).dirs != []
  {
  }

  lemma {:induction false} FeedAppend(s: Sink, a: bytes, b: bytes)
    requires s.dirs != []
    ensures Feed(s, a + b) == Feed(Feed(s, a), b)
    decreases |a|
  {
    if a == [] {
      assert a + b == b;
    } else {
      assert (a + b)[1..] == a[1..] + b;
      FeedAppend(Step(s, a[0]), a[1..], b);
    }
  }

  lemma FeedSnoc(s: Sink, a: bytes, b: byte)
    requires s.dirs != []
    ensures Feed(s, a + [b]) == Step(Feed(s, a), b)
  {
    FeedAppend(s, a, [b]);
    assert Feed(Feed(s, a), [b]) == Feed(Step(Feed(s, a), b), [b][1..]);
  }

  lemma {:induction false} RejectedForGood(s: Sink, input: bytes)
    requires s.dirs != [] && s.phase.Rejected?
    ensures Feed(s, input) == s
    decreases |input|
  {
    if input != [] {
      RejectedForGood(s, input[1..]);
    }
  }

  // ----- What every byte stream keeps -----

  /** Each directory extends the one below by one valid name; the target stays at the bottom. */
  ghost predicate Stack(dirs: seq<Path>, target: Path) {
    && 1 <= |dirs| <= MAX_RECURSION_DEPTH
    && dirs[0] == target
    && forall i :: 0 < i < |dirs| ==> ChildOf(dirs[i], dirs[i - 1])
  }

  ghost predicate ChildOf(child: Path, parent: Path) {
    && |child| == |parent| + 1
    && child[..|parent|] == parent
    && ValidName(child[|parent|])
  }

  ghost predicate Below(path: Path, directory: Path) {
    directory < path
  }

  /** Entries are only added or changed strictly below the target, or at the forced path. */
  ghost predicate Contained(fs: FileSystem, before: FileSystem, target: SinkTarget) {
    && (forall p :: p in before ==> p in fs)
    && (forall p :: p in before && before[p].DirEntry? ==> fs[p] == before[p])
    && (forall p :: p in fs && (p !in before || fs[p] != before[p]) ==>
          Below(p, target.directory) || target.forced == Some(p))
  }

  /** The file being received lies below the target, or at the forced path. */
  ghost predicate PendingFile(s: Sink, target: SinkTarget) {
    match s.phase
    case ReadingData(path, _, size, data) =>
      |data| < size && (Below(path, target.directory) || target.forced == Some(path))
    case ReadingZero(path, _, _) => Below(path, target.directory) || target.forced == Some(path)
    case _ => true
  }

  /** One greeting, one acknowledgement a record, and one more when a file is stored. */
  function AcksOwed(tally: Tally, phase: Phase): int {
    1 + tally.times + tally.enters + tally.leaves + 2 * tally.copies
    - (if phase.ReadingData? || phase.ReadingZero? then 1 else 0)
  }

  ghost predicate Storage(fs: FileSystem, dirs: seq<Path>, before: FileSystem, target: SinkTarget) {
    && Stack(dirs, target.directory)
    && (forall i :: 0 <= i < |dirs| ==> IsDir(fs, dirs[i]))
    && WellFormed(fs)
    && Contained(fs, before, target)
  }

  ghost predicate Balanced(s: Sink) {
    && s.tally.enters - s.tally.leaves == |s.dirs| - 1
    && (!s.phase.Rejected? ==> s.acks == AcksOwed(s.tally, s.phase))
  }

  ghost predicate Inv(s: Sink, before: FileSystem, target: SinkTarget) {
    && Storage(s.fs, s.dirs, before, target)
    && (s.forced.Some? ==> s.forced == target.forced && |s.dirs| == 1)
    && PendingFile(s, target)
    && Balanced(s)
  }

  lemma StackBelow(dirs: seq<Path>, target: Path, i: nat)
    requires Stack(dirs, target) && i < |dirs|
    ensures target <= dirs[i]
  {
    if i > 0 {
      StackBelow(dirs, target, i - 1);
    }
  }

  /** Creating an entry, or replacing a file, inside a directory of the tree. */
  lemma PutKeepsStorage(
      fs: FileSystem, path: Path, entry: Entry,
      dirs: seq<Path>, before: FileSystem, target: SinkTarget)
    requires Storage(fs, dirs, before, target)
    requires path != [] && !IsDir(fs, path) && IsDir(fs, path[..|path| - 1])
    requires Below(path, target.directory) || target.forced == Some(path)
    ensures Storage(fs[path := entry], dirs, before, target)
  {
    PutKeepsForm(fs, path, entry);
  }

  lemma PutKeepsForm(fs: FileSystem, path: Path, entry: Entry)
    requires WellFormed(fs)
    requires path != [] && !IsDir(fs, path) && IsDir(fs, path[..|path| - 1])
    ensures WellFormed(fs[path := entry])
  {
    var fs' := fs[path := entry];
    forall p | p in fs'
      ensures ParentIsDir(fs', p)
    {
      assert p != path ==> ParentIsDir(fs, p);
    }
  }

  lemma PushKeepsStorage(
      fs: FileSystem, dirs: seq<Path>, path: Path, before: FileSystem, target: SinkTarget)
    requires Storage(fs, dirs, before, target)
    requires |dirs| < MAX_RECURSION_DEPTH
    requires IsDir(fs, path) && ChildOf(path, Last(dirs))
    ensures Storage(fs, dirs + [path], before, target)
  {
    var dirs' := dirs + [path];
    forall i | 0 < i < |dirs'|
      ensures ChildOf(dirs'[i], dirs'[i - 1])
    {
      if i < |dirs| {
        assert dirs'[i] == dirs[i] && dirs'[i - 1] == dirs[i - 1];
      }
    }
  }

  lemma EnterKeepsInv(s: Sink, line: bytes, before: FileSystem, target: SinkTarget)
    requires Inv(s, before, target) && s.phase.ReadingLine?
    ensures Inv(ProcessEnter(s, line), before, target)
  {
    if !ProcessEnter(s, line).phase.Rejected? {
      var control := ParseControl(line, LETTER_D).value;
      EnteredKeepsInv(s, PortableName(control.name).value, control.mode, before, target);
    }
  }

  lemma EnteredKeepsInv(s: Sink, name: bytes, mode: nat, before: FileSystem, target: SinkTarget)
    requires Inv(s, before, target) && s.phase.ReadingLine? && s.forced.None? && ValidName(name)
    requires |s.dirs| < MAX_RECURSION_DEPTH && CreateDir(s.fs, Last(s.dirs) + [name], mode).Some?
    ensures Inv(Entered(s, Last(s.dirs) + [name], mode), before, target)
  {
    var path := Last(s.dirs) + [name];
    assert path[..|path| - 1] == Last(s.dirs);
    LastIsBelow(s.dirs, target.directory, name);
    PutKeepsStorage(s.fs, path, DirEntry(mode), s.dirs, before, target);
    PushKeepsStorage(s.fs[path := DirEntry(mode)], s.dirs, path, before, target);
  }

  lemma CopyKeepsInv(s: Sink, line: bytes, before: FileSystem, target: SinkTarget)
    requires Inv(s, before, target) && s.phase.ReadingLine?
    ensures Inv(ProcessCopy(s, line), before, target)
  {
    if !ProcessCopy(s, line).phase.Rejected? {
      var control := ParseControl(line, LETTER_C).value;
      AnnouncedKeepsInv(s, PortableName(control.name).value, control.mode, control.size, before, target);
    }
  }

  lemma AnnouncedKeepsInv(s: Sink, name: bytes, mode: nat, size: nat, before: FileSystem, target: SinkTarget)
    requires Inv(s, before, target) && s.phase.ReadingLine?
    ensures Inv(Announced(s, CopyPath(s, name), mode, size), before, target)
  {
    LastIsBelow(s.dirs, target.directory, name);
    assert PendingFile(Announced(s, CopyPath(s, name), mode, size), target);
  }

  lemma LastIsBelow(dirs: seq<Path>, target: Path, name: bytes)
    requires Stack(dirs, target)
    ensures Below(Last(dirs) + [name], target)
  {
    StackBelow(dirs, target, |dirs| - 1);
  }

  lemma LeaveKeepsInv(s: Sink, before: FileSystem, target: SinkTarget)
    requires Inv(s, before, target) && s.phase.ReadingLine? && |s.dirs| > 1
    ensures Inv(ProcessLeave(s), before, target)
  {
    var r := ProcessLeave(s);
    assert forall i :: 0 <= i < |r.dirs| ==> r.dirs[i] == s.dirs[i];
  }

  lemma LineKeepsInv(s: Sink, line: bytes, before: FileSystem, target: SinkTarget)
    requires Inv(s, before, target) && s.phase.ReadingLine?
    requires line != [] && line[|line| - 1] == NEWLINE
    ensures Inv(ProcessLine(s, line), before, target)
  {
    if line[0] == LETTER_D {
      EnterKeepsInv(s, line, before, target);
    } else if line[0] == LETTER_C {
      CopyKeepsInv(s, line, before, target);
    } else if line == [LETTER_E, NEWLINE] && |s.dirs| > 1 {
      LeaveKeepsInv(s, before, target);
    }
  }

  lemma StepKeepsInv(s: Sink, b: byte, before: FileSystem, target: SinkTarget)
    requires Inv(s, before, target)
    ensures Inv(Step(s, b), before, target)
  {
    match s.phase
    case ReadingLine(line) =>
      if b == NEWLINE {
        LineKeepsInv(s, line + [b], before, target);
      }
    case ReadingZero(path, mode, data) =>
      if b == 0 && WriteFile(s.fs, path, mode, data).Some? {
        PutKeepsStorage(s.fs, path, FileEntry(mode, data), s.dirs, before, target);
      }
    case _ =>
  }

  lemma {:induction false} FeedKeepsInv(s: Sink, input: bytes, before: FileSystem, target: SinkTarget)
    requires Inv(s, before, target)
    ensures Inv(Feed(s, input), before, target)
    decreases |input|
  {
    if input != [] {
      StepKeepsInv(s, input[0], before, target);
      FeedKeepsInv(Step(s, input[0]), input[1..], before, target);
    }
  }

  lemma StartInv(fs: FileSystem, request: Request, newDirMode: nat)
    requires WellFormed(fs) && Start(fs, request, newDirMode).Some?
    ensures
      var r := ResolveSinkTarget(fs, request, newDirMode).value;
      && WellFormed(r.0)
      && Inv(Start(fs, request, newDirMode).value, r.0, r.1)
  {
    TargetIsDirectory(fs, request, newDirMode);
    var r := ResolveSinkTarget(fs, request, newDirMode).value;
    assert Storage(r.0, [r.1.directory], r.0, r.1);
  }

  lemma TargetIsDirectory(fs: FileSystem, request: Request, newDirMode: nat)
    requires WellFormed(fs) && ResolveSinkTarget(fs, request, newDirMode).Some?
    ensures
      var r := ResolveSinkTarget(fs, request, newDirMode).value;
      IsDir(r.0, r.1.directory) && WellFormed(r.0)
  {
    var path := Normals(request.target);
    if CreateDir(fs, path, newDirMode).Some? {
      PutKeepsForm(fs, path, DirEntry(newDirMode));
    }
  }

  /**
   * For every byte stream: the directory stack keeps its shape, the file
   * system changes only below the target, and a completed run has balanced
   * D and E records and has sent 1 + #T + #D + #E + 2 * #C acknowledgements.
   */
  lemma EveryStreamIsSafe(fs: FileSystem, request: Request, newDirMode: nat, input: bytes)
    requires WellFormed(fs) && Start(fs, request, newDirMode).Some?
    ensures
      var r := ResolveSinkTarget(fs, request, newDirMode).value;
      var s := Feed(Start(fs, request, newDirMode).value, input);
      && Stack(s.dirs, r.1.directory)
      && WellFormed(s.fs)
      && Contained(s.fs, r.0, r.1)
      && (Completed(s) ==>
            && s.tally.enters == s.tally.leaves
            && s.acks == 1 + s.tally.times + s.tally.enters + s.tally.leaves + 2 * s.tally.copies)
  {
    var r := ResolveSinkTarget(fs, request, newDirMode).value;
    StartInv(fs, request, newDirMode);
    FeedKeepsInv(Start(fs, request, newDirMode).value, input, r.0, r.1);
  }
}
