/**
 * A transfer seen from the root of the source: which entry a request names,
 * what lies in it, and that exactly this arrives.
 */
module ScpRoot {
  import opened Common
  import opened ScpText
  import opened ScpSink
  import opened ScpSource
  import opened ScpReceipt
  import opened ScpTransfer

  // ----- What lies where -----

  /** A directory lists a child under a name. */
  predicate Lists(entries: Entries, name: bytes, child: Tree) {
    match entries
    case Nil => false
    case More(n, c, rest) => (n == name && c == child) || Lists(rest, name, child)
  }

  /** The entry lies at the path: at the root itself, or in a listed child. */
  ghost predicate LiesAt(root: Tree, path: Path, t: Tree)
    decreases |path|
  {
    if path == [] then t == root
    else root.Dir? && exists child :: Lists(root.entries, path[0], child) && LiesAt(child, path[1..], t)
  }

  lemma {:induction false} ListedOnce(entries: Entries, name: bytes, a: Tree, b: Tree)
    requires SoundEntries(entries) && Lists(entries, name, a)
    ensures name in Names(entries) && Sound(a)
    ensures Lists(entries, name, b) ==> a == b
    decreases entries
  {
    if Lists(entries.rest, name, a) {
      ListedOnce(entries.rest, name, a, b);
    }
    if Lists(entries.rest, name, b) {
      ListedInNames(entries.rest, name, b);
    }
  }

  lemma {:induction false} ListedInNames(entries: Entries, name: bytes, child: Tree)
    requires Lists(entries, name, child)
    ensures name in Names(entries)
    decreases entries
  {
    if Lists(entries.rest, name, child) {
      ListedInNames(entries.rest, name, child);
    }
  }

  /** Looking a name up finds what the directory lists under it. */
  lemma {:induction false} FindInIsListed(entries: Entries, name: bytes, child: Tree)
    requires SoundEntries(entries)
    ensures FindIn(entries, name) == Some(child) <==> Lists(entries, name, child)
    decreases entries
  {
    if entries.More? {
      FindInIsListed(entries.rest, name, child);
      if Lists(entries.rest, name, child) {
        ListedInNames(entries.rest, name, child);
      }
    }
  }

  /** The requested entry is the one that lies at the path. */
  lemma {:induction false} FindIsWhatLies(root: Tree, path: Path, t: Tree)
    requires Sound(root)
    ensures Find(root, path) == Some(t) <==> LiesAt(root, path, t)
    ensures LiesAt(root, path, t) ==> Sound(t)
    decreases |path|
  {
    if path != [] && root.Dir? {
      if LiesAt(root, path, t) {
        var child :| Lists(root.entries, path[0], child) && LiesAt(child, path[1..], t);
        ListedOnce(root.entries, path[0], child, child);
        FindInIsListed(root.entries, path[0], child);
        FindIsWhatLies(child, path[1..], t);
      }
      var found := FindIn(root.entries, path[0]);
      if found.Some? {
        FindInIsListed(root.entries, path[0], found.value);
        ListedOnce(root.entries, path[0], found.value, found.value);
        FindIsWhatLies(found.value, path[1..], t);
      }
    }
  }

  // ----- What a flattened tree holds -----

  /** What a file system holds for an entry; links and special files leave nothing. */
  function EntryOf(t: Tree): Option<Entry> {
    match t
    case File(mode, _, data) => Some(FileEntry(mode % PERMISSION_BITS, data))
    case Dir(mode, _, _) => Some(DirEntry(mode % PERMISSION_BITS))
    case _ => None
  }

  function At(fs: FileSystem, path: Path): Option<Entry> {
    if path in fs then Some(fs[path]) else None
  }

  /** Nothing lies at a path, or the file system has just what lies there. */
  ghost predicate Mirrors(held: Option<Entry>, root: Tree, path: Path) {
    && (forall t :: LiesAt(root, path, t) ==> held == EntryOf(t))
    && ((forall t :: !LiesAt(root, path, t)) ==> held == None)
  }

  lemma KeysApart(path: Path, entries: Entries, name: bytes, rest: Path)
    requires name !in Names(entries)
    ensures path + ([name] + rest) !in FlattenEntries(path, entries)
  {
    FlattenEntriesKeys(path, entries);
    assert (path + ([name] + rest))[|path|] == name;
  }

  lemma NotBelow(path: Path, child: Tree, name: bytes, other: bytes, rest: Path)
    requires name != other
    ensures path + ([name] + rest) !in Flatten(path + [other], child)
  {
    FlattenKeys(path + [other], child);
    var p := path + ([name] + rest);
    assert p[|path|] == name && (path + [other])[|path|] == other;
  }

  lemma {:induction false} EntriesHold(path: Path, entries: Entries, name: bytes, rest: Path)
    requires SoundEntries(entries)
    ensures forall child :: Lists(entries, name, child) ==>
      At(FlattenEntries(path, entries), path + ([name] + rest))
      == At(Flatten(path + [name], child), path + [name] + rest)
    ensures name !in Names(entries) ==> At(FlattenEntries(path, entries), path + ([name] + rest)) == None
    decreases entries
  {
    assert path + ([name] + rest) == path + [name] + rest;
    match entries
    case Nil =>
    case More(n, c, more) =>
      EntriesHold(path, more, name, rest);
      if n == name {
        KeysApart(path, more, name, rest);
        forall child | Lists(entries, name, child)
          ensures child == c
        {
          ListedOnce(entries, name, c, child);
        }
      } else {
        NotBelow(path, c, name, n, rest);
      }
  }

  lemma {:induction false} NotListed(entries: Entries, name: bytes)
    requires forall child :: !Lists(entries, name, child)
    ensures name !in Names(entries)
    decreases entries
  {
    if entries.More? {
      assert Lists(entries, entries.name, entries.child);
      forall child
        ensures !Lists(entries.rest, name, child)
      {
        assert !Lists(entries, name, child);
      }
      NotListed(entries.rest, name);
    }
  }

  /** A flattened tree holds, at each path below its own, the entry that lies there. */
  lemma {:induction false} FlattenHolds(path: Path, t: Tree, q: Path)
    requires Sound(t)
    ensures Mirrors(At(Flatten(path, t), path + q), t, q)
    decreases |q|
  {
    if q == [] {
      assert path + q == path;
      if t.Dir? {
        FlattenEntriesKeys(path, t.entries);
      }
      assert LiesAt(t, q, t);
    } else {
      assert q == [q[0]] + q[1..];
      if t.Dir? {
        DirHolds(path, t, q[0], q[1..]);
      } else {
        FlattenKeys(path, t);
        assert path + q != path;
      }
    }
  }

  lemma {:induction false} DirHolds(path: Path, t: Tree, name: bytes, rest: Path)
    requires Sound(t) && t.Dir?
    ensures Mirrors(At(Flatten(path, t), path + ([name] + rest)), t, [name] + rest)
    decreases |rest| + 1, 0
  {
    var q := [name] + rest;
    assert q[0] == name && q[1..] == rest;
    assert path + q != path;
    EntriesHold(path, t.entries, name, rest);
    if child :| Lists(t.entries, name, child) {
      ListedOnce(t.entries, name, child, child);
      FlattenHolds(path + [name], child, rest);
      SameBelow(t, name, rest, child);
    } else {
      NotListed(t.entries, name);
    }
  }

  lemma SameBelow(t: Tree, name: bytes, rest: Path, child: Tree)
    requires Sound(t) && t.Dir? && Lists(t.entries, name, child)
    ensures forall x :: LiesAt(t, [name] + rest, x) <==> LiesAt(child, rest, x)
  {
    var q := [name] + rest;
    assert q[0] == name && q[1..] == rest;
    forall x
      ensures LiesAt(t, q, x) <==> LiesAt(child, rest, x)
    {
      if LiesAt(t, q, x) {
        var c :| Lists(t.entries, name, c) && LiesAt(c, rest, x);
        ListedOnce(t.entries, name, child, c);
      }
    }
  }

  /** What lies below an entry lies below it in the whole tree. */
  lemma {:induction false} LiesBelow(root: Tree, path: Path, t: Tree, q: Path)
    requires Sound(root) && LiesAt(root, path, t)
    ensures forall x :: LiesAt(root, path + q, x) <==> LiesAt(t, q, x)
    decreases |path|
  {
    if path == [] {
      assert path + q == q;
    } else {
      var child :| Lists(root.entries, path[0], child) && LiesAt(child, path[1..], t);
      ListedOnce(root.entries, path[0], child, child);
      LiesBelow(child, path[1..], t, q);
      assert path + q == [path[0]] + (path[1..] + q);
      SameBelow(root, path[0], path[1..] + q, child);
    }
  }

  lemma MirrorsOne(a: Option<Entry>, b: Option<Entry>, root: Tree, path: Path, t: Tree, q: Path)
    requires Mirrors(a, root, path) && Mirrors(b, t, q)
    requires forall x :: LiesAt(root, path, x) <==> LiesAt(t, q, x)
    ensures a == b
  {
    if x :| LiesAt(root, path, x) {
      assert LiesAt(t, q, x);
    }
  }

  /** The flattened entry, wherever it is put, holds what the flattened root has below the entry's path. */
  lemma FlattenedPart(root: Tree, path: Path, t: Tree, target: Path, q: Path)
    requires Sound(root) && LiesAt(root, path, t)
    ensures At(Flatten(target, t), target + q) == At(Flatten([], root), path + q)
  {
    FindIsWhatLies(root, path, t);
    FlattenHolds(target, t, q);
    FlattenHolds([], root, path + q);
    assert [] + (path + q) == path + q;
    LiesBelow(root, path, t, q);
    MirrorsOne(At(Flatten([], root), path + q), At(Flatten(target, t), target + q), root, path + q, t, q);
  }

  // ----- A session from the root -----

  /** The name under which an entry is sent: its own, and for the root that of the root. */
  function SentName(rootName: bytes, path: Path): bytes {
    if path == [] then rootName else path[|path| - 1]
  }

  /** The request names an entry that can be sent, received and stored. */
  ghost predicate Arrives(root: Tree, rootName: bytes, request: Request, recursiveSink: bool) {
    && request.target != [] && ParentDir !in request.target && RootDir !in request.target
    && var path := Normals(request.target);
       && Sendable(SentName(rootName, path))
       && exists t :: LiesAt(root, path, t) && Transferable(t, SentName(rootName, path), request, recursiveSink, 0)
  }

  /** The sink's files: what was there, and below the target exactly what the root has below the requested path. */
  ghost predicate Copied(fs: FileSystem, before: FileSystem, target: Path, root: Tree, path: Path) {
    && (forall q: Path :: At(fs, target + q) == At(Flatten([], root), path + q))
    && (forall p: Path :: !(target <= p) ==> At(fs, p) == At(before, p))
  }

  lemma PutBelow(before: FileSystem, target: Path, root: Tree, path: Path, t: Tree)
    requires Sound(root) && LiesAt(root, path, t) && FreeBelow(before, target)
    ensures Copied(before + Flatten(target, t), before, target, root, path)
  {
    var fs := before + Flatten(target, t);
    FlattenKeys(target, t);
    forall q: Path
      ensures At(fs, target + q) == At(Flatten([], root), path + q)
    {
      FlattenedPart(root, path, t, target, q);
      assert target <= target + q;
    }
  }

  /** A session that is given up at once delivers nothing and ends on both sides. */
  lemma NothingIsSent(s0: Sink, moves: seq<Move>, files: FileSystem)
    requires |s0.dirs| == 1 && s0.acks == 1 && s0.phase == ReadingLine([])
    ensures Outcome(Run(Initial(s0), [Abort], moves), [Abort], false, files)
  {
    var script: Script := [Abort];
    var n := Run(Initial(s0), script, moves);
    InitialInv(script, s0);
    RunKeepsInv(Initial(s0), script, s0, moves);
    NoDeadlock(n, script, s0);
    if n.source.Succeeded? {
      SourceSuccess(n, script, s0);
    }
    if n.sinkStatus.Succeeded? {
      SinkSuccess(n, script, s0);
      SourceSuccess(n, script, s0);
    }
  }

  /** How a session from the root can stand: as any session, and a sink that has succeeded holds the copy. */
  ghost predicate RootOutcome(
      n: Net, script: Script, arrives: bool, before: FileSystem, target: Path, root: Tree, path: Path)
  {
    && (Finished(n) || Enabled(n, script, SourceMoves) || Enabled(n, script, SinkMoves))
    && (n.sinkStatus.Succeeded? ==> n.source.Succeeded? && Copied(n.sink.fs, before, target, root, path))
    && (n.source.Succeeded? ==> arrives)
    && (Finished(n) && !n.late ==>
          (n.source.Succeeded? <==> arrives) && (n.sinkStatus.Succeeded? <==> arrives))
  }

  /**
   * The source serves the very entry that is asked for. For any root, any
   * request and any schedule: below the sink's directory, under the entry's
   * own name, there is afterwards exactly what the flattened root has at and
   * below the requested path, and nothing else has changed. Without deadlines
   * both sides succeed if and only if such an entry lies there and can be
   * transferred.
   */
  lemma EveryScheduleServesTheRequest(
      fs: FileSystem, sinkRequest: Request, newDirMode: nat, s0: Sink,
      root: Tree, rootName: bytes, request: Request, moves: seq<Move>)
    requires Receives(s0, fs, sinkRequest, newDirMode) && Sound(root)
    requires
      var name := SentName(rootName, Normals(request.target));
      FreeBelow(Prepared(fs, Normals(sinkRequest.target), newDirMode), Normals(sinkRequest.target) + [name])
    ensures
      var path := Normals(request.target);
      var script := SourceScript(root, rootName, request);
      RootOutcome(
        Run(Initial(s0), script, moves), script, Arrives(root, rootName, request, sinkRequest.recursive),
        Prepared(fs, Normals(sinkRequest.target), newDirMode),
        Normals(sinkRequest.target) + [SentName(rootName, path)], root, path)
  {
    var path := Normals(request.target);
    var name := SentName(rootName, path);
    var before, target := Prepared(fs, Normals(sinkRequest.target), newDirMode), Normals(sinkRequest.target) + [name];
    var script := SourceScript(root, rootName, request);
    var found := Find(root, path);
    ScriptOfTheRequest(root, rootName, request, sinkRequest.recursive);
    if script == [Abort] {
      NothingIsSent(s0, moves, before);
    } else {
      EveryScheduleTransfers(fs, sinkRequest, newDirMode, s0, found.value, name, request, moves);
      PutBelow(before, target, root, path, found.value);
    }
  }

  /** The sink's file: the one that was asked for, and nothing else has changed. */
  ghost predicate CopiedFile(fs: FileSystem, before: FileSystem, target: Path, root: Tree, path: Path) {
    && At(fs, target) == At(Flatten([], root), path)
    && (forall p: Path :: p != target ==> At(fs, p) == At(before, p))
  }

  ghost predicate FileArrives(root: Tree, rootName: bytes, request: Request, recursiveSink: bool) {
    && Arrives(root, rootName, request, recursiveSink)
    && exists t :: LiesAt(root, Normals(request.target), t) && t.File?
  }

  /**
   * The same for a sink whose target is a file or a new name: it holds
   * afterwards the file that lies at the requested path, under its own name.
   */
  lemma EveryScheduleServesTheFile(
      fs: FileSystem, sinkRequest: Request, newDirMode: nat, s0: Sink,
      root: Tree, rootName: bytes, request: Request, moves: seq<Move>)
    requires Start(fs, sinkRequest, newDirMode) == Some(s0) && !IsDir(fs, Normals(sinkRequest.target))
    requires !sinkRequest.targetIsDirectory && Sound(root)
    ensures
      var path, script := Normals(request.target), SourceScript(root, rootName, request);
      var n, arrives := Run(Initial(s0), script, moves), FileArrives(root, rootName, request, sinkRequest.recursive);
      && (Finished(n) || Enabled(n, script, SourceMoves) || Enabled(n, script, SinkMoves))
      && (n.sinkStatus.Succeeded? ==>
            n.source.Succeeded? && CopiedFile(n.sink.fs, fs, Normals(sinkRequest.target), root, path))
      && (n.source.Succeeded? ==> arrives)
      && (Finished(n) && !n.late ==>
            (n.source.Succeeded? <==> arrives) && (n.sinkStatus.Succeeded? <==> arrives))
  {
    var path, target := Normals(request.target), Normals(sinkRequest.target);
    var name := SentName(rootName, path);
    var script := SourceScript(root, rootName, request);
    ScriptOfTheRequest(root, rootName, request, sinkRequest.recursive);
    var found := Find(root, path);
    if script == [Abort] {
      NothingIsSent(s0, moves, fs);
    } else {
      EveryScheduleStoresTheFile(fs, sinkRequest, newDirMode, s0, found.value, name, request, moves);
      if found.value.File? {
        PutFile(fs, target, root, path, found.value);
      }
    }
  }

  /** A session is given up at once, or serves the entry that lies at the path under its name. */
  lemma ScriptOfTheRequest(root: Tree, rootName: bytes, request: Request, recursiveSink: bool)
    requires Sound(root)
    ensures
      var path := Normals(request.target);
      var name, found, script := SentName(rootName, path), Find(root, path), SourceScript(root, rootName, request);
      var sent := found.Some? && Transferable(found.value, name, request, recursiveSink, 0);
      if script == [Abort] then !Arrives(root, rootName, request, recursiveSink)
      else
        && found.Some? && LiesAt(root, path, found.value) && Sound(found.value)
        && Sendable(name) && script == Session(found.value, name, request)
        && (Arrives(root, rootName, request, recursiveSink) <==> sent)
        && (FileArrives(root, rootName, request, recursiveSink) <==> sent && found.value.File?)
  {
    OnlyFound(root, Normals(request.target));
  }

  lemma PutFile(before: FileSystem, target: Path, root: Tree, path: Path, t: Tree)
    requires Sound(root) && LiesAt(root, path, t) && t.File?
    ensures CopiedFile(before + StoredFile(target, t), before, target, root, path)
  {
    FlattenedPart(root, path, t, target, []);
    assert target + [] == target && path + [] == path;
  }

  /** At most one entry lies at a path, and looking it up finds it. */
  lemma OnlyFound(root: Tree, path: Path)
    requires Sound(root)
    ensures forall t :: LiesAt(root, path, t) <==> Find(root, path) == Some(t)
    ensures Find(root, path).Some? ==> Sound(Find(root, path).value)
  {
    forall t
      ensures LiesAt(root, path, t) <==> Find(root, path) == Some(t)
    {
      FindIsWhatLies(root, path, t);
    }
    if Find(root, path).Some? {
      FindIsWhatLies(root, path, Find(root, path).value);
    }
  }

  // ----- Which trees can be transferred -----

  /** What both sides ask of one entry at its depth. */
  predicate Passes(t: Tree, name: bytes, request: Request, recursiveSink: bool, depth: nat) {
    match t
    case Link => false
    case Special(_) => false
    case File(mode, _, data) =>
      depth < 32 && |data| <= 16 * 1024 * 1024 && |ControlLine(LETTER_C, mode % 512, |data|, name)| <= 8 * 1024
    case Dir(mode, _, _) =>
      && request.recursive && recursiveSink && depth < 31
      && |ControlLine(LETTER_D, mode % 512, 0, name)| <= 8 * 1024
  }

  ghost predicate PassesAt(
      t: Tree, name: bytes, request: Request, recursiveSink: bool, depth: nat, q: Path, x: Tree)
  {
    LiesAt(t, q, x) ==>
      (q != [] ==> Sendable(q[|q| - 1])) && Passes(x, SentName(name, q), request, recursiveSink, depth + |q|)
  }

  ghost predicate AllPassAt(t: Tree, name: bytes, request: Request, recursiveSink: bool, depth: nat) {
    forall q, x :: PassesAt(t, name, request, recursiveSink, depth, q, x)
  }

  /** A tree is transferable exactly when every entry in it passes, and all names can be sent. */
  lemma TransferableMeans(t: Tree, name: bytes, request: Request, recursiveSink: bool, depth: nat)
    ensures Transferable(t, name, request, recursiveSink, depth)
       <==> AllPassAt(t, name, request, recursiveSink, depth)
  {
    if Transferable(t, name, request, recursiveSink, depth) {
      forall q, x
        ensures PassesAt(t, name, request, recursiveSink, depth, q, x)
      {
        EntryPasses(t, name, request, recursiveSink, depth, q, x);
      }
    }
    if AllPassAt(t, name, request, recursiveSink, depth) {
      AllPass(t, name, request, recursiveSink, depth);
    }
  }

  lemma {:induction false} EntryPasses(
      t: Tree, name: bytes, request: Request, recursiveSink: bool, depth: nat, q: Path, x: Tree)
    requires Transferable(t, name, request, recursiveSink, depth)
    ensures PassesAt(t, name, request, recursiveSink, depth, q, x)
    decreases |q|
  {
    if q != [] && LiesAt(t, q, x) {
      var child :| Lists(t.entries, q[0], child) && LiesAt(child, q[1..], x);
      ListedPasses(t.entries, request, recursiveSink, depth + 1, q[0], child);
      EntryPasses(child, q[0], request, recursiveSink, depth + 1, q[1..], x);
      assert SentName(name, q) == SentName(q[0], q[1..]);
    }
  }

  lemma {:induction false} ListedPasses(
      entries: Entries, request: Request, recursiveSink: bool, depth: nat, name: bytes, child: Tree)
    requires TransferableEntries(entries, request, recursiveSink, depth) && Lists(entries, name, child)
    ensures Sendable(name) && Transferable(child, name, request, recursiveSink, depth)
    decreases entries
  {
    if entries.name != name || entries.child != child {
      ListedPasses(entries.rest, request, recursiveSink, depth, name, child);
    }
  }

  lemma {:induction false} AllPass(t: Tree, name: bytes, request: Request, recursiveSink: bool, depth: nat)
    requires AllPassAt(t, name, request, recursiveSink, depth)
    ensures Transferable(t, name, request, recursiveSink, depth)
    decreases t, 1
  {
    var none: Path := [];
    assert LiesAt(t, none, t) && PassesAt(t, name, request, recursiveSink, depth, none, t);
    if t.Dir? {
      forall n, child | Lists(t.entries, n, child)
        ensures Sendable(n) && AllPassAt(child, n, request, recursiveSink, depth + 1)
      {
        ChildPasses(t, name, request, recursiveSink, depth, n, child);
      }
      AllEntriesPass(t.entries, request, recursiveSink, depth + 1);
    }
  }

  lemma ChildPasses(
      t: Tree, name: bytes, request: Request, recursiveSink: bool, depth: nat, n: bytes, child: Tree)
    requires t.Dir? && Lists(t.entries, n, child)
    requires AllPassAt(t, name, request, recursiveSink, depth)
    ensures Sendable(n) && AllPassAt(child, n, request, recursiveSink, depth + 1)
  {
    forall q: Path, x | LiesAt(child, q, x)
      ensures PassesAt(child, n, request, recursiveSink, depth + 1, q, x)
    {
      var below := [n] + q;
      assert below[0] == n && below[1..] == q;
      assert LiesAt(t, below, x) && PassesAt(t, name, request, recursiveSink, depth, below, x);
      assert SentName(name, below) == SentName(n, q);
    }
    var own: Path := [n];
    assert own[0] == n && LiesAt(child, own[1..], child);
    assert LiesAt(t, own, child) && PassesAt(t, name, request, recursiveSink, depth, own, child);
  }

  lemma {:induction false} AllEntriesPass(entries: Entries, request: Request, recursiveSink: bool, depth: nat)
    requires forall n, child :: Lists(entries, n, child) ==>
      Sendable(n) && AllPassAt(child, n, request, recursiveSink, depth)
    ensures TransferableEntries(entries, request, recursiveSink, depth)
    decreases entries, 0
  {
    if entries.More? {
      assert Lists(entries, entries.name, entries.child);
      AllPass(entries.child, entries.name, request, recursiveSink, depth);
      forall n, child | Lists(entries.rest, n, child)
        ensures Sendable(n) && AllPassAt(child, n, request, recursiveSink, depth)
      {
        assert Lists(entries, n, child);
      }
      AllEntriesPass(entries.rest, request, recursiveSink, depth);
    }
  }

  // ----- Playing a script against a peer -----

  /** The peer's answers to the awaits of a script are all there, and all zero. */
  predicate Granted(script: Script, incoming: bytes) {
    Awaits(script) <= |incoming| && forall i :: 0 <= i < Awaits(script) ==> incoming[i] == 0
  }

  /** Where a play stops: at an abort, or at an await whose answer is missing or not zero. */
  predicate StopsAt(script: Script, incoming: bytes, k: nat) {
    && k < |script| && Abort !in script[..k] && Granted(script[..k], incoming)
    && (script[k] == Abort
        || (script[k] == Expect
            && (Awaits(script[..k]) == |incoming| || incoming[Awaits(script[..k])] != 0)))
  }

  lemma AwaitsCons(script: Script, incoming: bytes)
    requires script != [] && script[0] != Abort
    ensures Abort in script <==> Abort in script[1..]
    ensures script[0].Send? ==> (Granted(script, incoming) <==> Granted(script[1..], incoming))
    ensures script[0].Expect? && incoming != [] ==>
      (Granted(script, incoming) <==> incoming[0] == 0 && Granted(script[1..], incoming[1..]))
  {
    assert script == [script[0]] + script[1..];
    if script[0].Expect? && incoming != [] {
      assert forall i :: 0 <= i < |incoming| - 1 ==> incoming[1..][i] == incoming[i + 1];
      if Granted(script, incoming) {
        assert forall i :: 0 <= i < Awaits(script[1..]) ==> incoming[1..][i] == 0;
      }
      if incoming[0] == 0 && Granted(script[1..], incoming[1..]) {
        forall i | 0 <= i < Awaits(script)
          ensures incoming[i] == 0
        {
          if i > 0 {
            assert incoming[1..][i - 1] == 0;
          }
        }
      }
    }
  }

  /**
   * A play succeeds if and only if the script does not abort and the peer
   * grants every await; then everything is sent and just the answers are used.
   */
  lemma {:induction false} PlaySucceeds(script: Script, incoming: bytes, sent: bytes)
    ensures
      var played := Play(script, incoming, sent);
      && (played.ok <==> Abort !in script && Granted(script, incoming))
      && (played.ok ==> played.sent == sent + Sent(script) && played.incoming == incoming[Awaits(script)..])
    decreases |script|
  {
    if script == [] {
      assert sent + [] == sent;
    } else if script[0] != Abort {
      AwaitsCons(script, incoming);
      match script[0]
      case Send(data) =>
        PlaySucceeds(script[1..], incoming, sent + data);
        assert (sent + data) + Sent(script[1..]) == sent + (data + Sent(script[1..]));
      case Expect =>
        assert Sent(script) == Sent(script[1..]);
        if incoming != [] && incoming[0] == 0 {
          PlaySucceeds(script[1..], incoming[1..], sent);
        }
    }
  }

  /** A play that fails has sent what comes before the action it stops at, and nothing more. */
  lemma {:induction false} PlayFails(script: Script, incoming: bytes, sent: bytes) returns (k: nat)
    requires !Play(script, incoming, sent).ok
    ensures StopsAt(script, incoming, k)
    ensures Play(script, incoming, sent).sent == sent + Sent(script[..k])
    decreases |script|
  {
    k := 0;
    assert script[..0] == [] && sent + [] == sent;
    if script[0] != Abort && (script[0].Expect? ==> incoming != [] && incoming[0] == 0) {
      var next := if script[0].Expect? then incoming[1..] else incoming;
      var more := if script[0].Send? then script[0].data else [];
      assert sent + [] == sent;
      var j := PlayFails(script[1..], next, sent + more);
      k := j + 1;
      var head := script[..k];
      assert head[0] == script[0] && head[1..] == script[1..][..j];
      AwaitsCons(head, incoming);
      assert (sent + more) + Sent(script[1..][..j]) == sent + (more + Sent(script[1..][..j]));
    }
  }
}
