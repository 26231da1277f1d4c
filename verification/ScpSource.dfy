/**
 * The sending side of the SCP protocol: a file tree becomes a script of
 * sends and awaited acknowledgements, and `SendEntry` plays that script.
 */
module ScpSource {
  import opened Common
  import opened ScpText
  import opened ScpSink
  import opened ScpWire

  // ----- The source file system, an inductive tree -----

  /** Times are absent when the platform cannot tell or they precede the epoch. */
  datatype Stamp = Stamp(modified: Option<nat>, accessed: Option<nat>)

  /** `Link` stands for an entry whose canonical path is missing, leaves the root or is still a link. */
  datatype Tree =
    | File(mode: nat, stamp: Stamp, data: bytes)
    | Dir(mode: nat, stamp: Stamp, entries: Entries)
    | Special(stamp: Stamp)
    | Link

  /** A directory listing, in the order in which it is sent. */
  datatype Entries = Nil | More(name: bytes, child: Tree, rest: Entries)

  function Names(entries: Entries): set<bytes> {
    match entries
    case Nil => {}
    case More(name, _, rest) => {name} + Names(rest)
  }

  predicate StampFits(stamp: Stamp) {
    && (stamp.modified.Some? ==> stamp.modified.value <= U64_MAX)
    && (stamp.accessed.Some? ==> stamp.accessed.value <= U64_MAX)
  }

  /** What a file system guarantees: names are unique in a directory, times fit 64 bits. */
  predicate Sound(t: Tree) {
    match t
    case File(_, stamp, _) => StampFits(stamp)
    case Dir(_, stamp, entries) => StampFits(stamp) && SoundEntries(entries)
    case Special(stamp) => StampFits(stamp)
    case Link => true
  }

  predicate SoundEntries(entries: Entries) {
    match entries
    case Nil => true
    case More(name, child, rest) => name !in Names(rest) && Sound(child) && SoundEntries(rest)
  }

  // ----- The script -----

  datatype Action = Send(data: bytes) | Expect | Abort

  type Script = seq<Action>

  function Modified(stamp: Stamp): nat {
    if stamp.modified.Some? then stamp.modified.value else 0
  }

  function Accessed(stamp: Stamp): nat {
    if stamp.accessed.Some? then stamp.accessed.value else Modified(stamp)
  }

  function TimesScript(stamp: Stamp, preserve: bool): Script {
    if preserve then [Send(TimesLine(Modified(stamp), Accessed(stamp))), Expect] else []
  }

  function FileScript(mode: nat, data: bytes, name: bytes): Script {
    if |data| > MAX_FILE_SIZE then [Abort]
    else
      [ Send(ControlLine(LETTER_C, mode % PERMISSION_BITS, |data|, name)), Expect
      , Send(data), Send([0]), Expect ]
  }

  const LEAVE: Script := [Send([LETTER_E, NEWLINE]), Expect]

  function EnterScript(mode: nat, name: bytes): Script {
    [Send(ControlLine(LETTER_D, mode % PERMISSION_BITS, 0, name)), Expect]
  }

  function EntryScript(t: Tree, name: bytes, request: Request, depth: nat): Script {
    if depth >= MAX_RECURSION_DEPTH then [Abort]
    else
      match t
      case Link => [Abort]
      case Special(stamp) => TimesScript(stamp, request.preserveTimes) + [Abort]
      case File(mode, stamp, data) =>
        TimesScript(stamp, request.preserveTimes) + FileScript(mode, data, name)
      case Dir(mode, stamp, entries) =>
        TimesScript(stamp, request.preserveTimes)
        + if !request.recursive then [Abort]
          else EnterScript(mode, name) + (EntriesScript(entries, request, depth + 1) + LEAVE)
  }

  predicate Sendable(name: bytes) {
    Utf8(name) && ValidName(name)
  }

  function EntriesScript(entries: Entries, request: Request, depth: nat): Script {
    match entries
    case Nil => []
    case More(name, child, rest) =>
      (if Sendable(name) then EntryScript(child, name, request, depth) else [Abort])
      + EntriesScript(rest, request, depth)
  }

  // ----- Playing a script -----

  /** What is left of the peer's bytes, and everything sent, when a script stops. */
  datatype Played = Played(ok: bool, incoming: bytes, sent: bytes)

  function Play(script: Script, incoming: bytes, sent: bytes): Played {
    if script == [] then Played(true, incoming, sent)
    else
      match script[0]
      case Abort => Played(false, incoming, sent)
      case Send(data) => Play(script[1..], incoming, sent + data)
      case Expect =>
        if incoming == [] || incoming[0] != 0 then Played(false, incoming, sent)
        else Play(script[1..], incoming[1..], sent)
  }

  lemma {:induction false} PlayAppend(a: Script, b: Script, incoming: bytes, sent: bytes)
    ensures
      var first := Play(a, incoming, sent);
      Play(a + b, incoming, sent) == if first.ok then Play(b, first.incoming, first.sent) else first
    decreases |a|
  {
    if a == [] {
      assert a + b == b;
    } else {
      assert (a + b)[0] == a[0] && (a + b)[1..] == a[1..] + b;
      match a[0]
      case Abort =>
      case Send(data) => PlayAppend(a[1..], b, incoming, sent + data);
      case Expect =>
        if incoming != [] && incoming[0] == 0 {
          PlayAppend(a[1..], b, incoming[1..], sent);
        }
    }
  }

  lemma PlayExpect(incoming: bytes, sent: bytes)
    ensures Play([Expect], incoming, sent)
         == if incoming == [] || incoming[0] != 0 then Played(false, incoming, sent)
            else Played(true, incoming[1..], sent)
  {
  }

  lemma PlaySend(data: bytes, script: Script, incoming: bytes, sent: bytes)
    ensures Play([Send(data)] + script, incoming, sent) == Play(script, incoming, sent + data)
  {
    assert ([Send(data)] + script)[1..] == script;
  }

  method AwaitAck(wire: Wire) returns (ok: bool)
    modifies wire
    ensures
      var played := Play([Expect], old(wire.Flat()), old(wire.sent));
      && ok == played.ok && wire.sent == played.sent
      && (ok ==> wire.Flat() == played.incoming)
  {
    ghost var incoming := wire.Flat();
    PlayExpect(incoming, wire.sent);
    ok := wire.ExpectAck();
    if ok {
      assert incoming[1..] == wire.Flat();
    }
  }

  method SendPair(wire: Wire, data: bytes) returns (ok: bool)
    modifies wire
    ensures
      var played := Play([Send(data), Expect], old(wire.Flat()), old(wire.sent));
      && ok == played.ok && wire.sent == played.sent
      && (ok ==> wire.Flat() == played.incoming)
  {
    PlaySend(data, [Expect], wire.Flat(), wire.sent);
    assert [Send(data)] + [Expect] == [Send(data), Expect];
    wire.sent := wire.sent + data;
    ok := AwaitAck(wire);
  }

  method SendTimes(wire: Wire, stamp: Stamp, preserve: bool) returns (ok: bool)
    modifies wire
    ensures
      var played := Play(TimesScript(stamp, preserve), old(wire.Flat()), old(wire.sent));
      && ok == played.ok && wire.sent == played.sent
      && (ok ==> wire.Flat() == played.incoming)
  {
    if !preserve {
      return true;
    }
    ok := SendPair(wire, TimesLine(Modified(stamp), Accessed(stamp)));
  }

  lemma FileScriptParts(mode: nat, data: bytes, name: bytes)
    requires |data| <= MAX_FILE_SIZE
    ensures FileScript(mode, data, name)
         == [Send(ControlLine(LETTER_C, mode % PERMISSION_BITS, |data|, name)), Expect]
            + ([Send(data)] + [Send([0]), Expect])
  {
  }

  method SendFile(wire: Wire, mode: nat, data: bytes, name: bytes) returns (ok: bool)
    modifies wire
    ensures
      var played := Play(FileScript(mode, data, name), old(wire.Flat()), old(wire.sent));
      && ok == played.ok && wire.sent == played.sent
      && (ok ==> wire.Flat() == played.incoming)
  {
    if |data| > MAX_FILE_SIZE {
      return false;
    }
    var line := ControlLine(LETTER_C, mode % PERMISSION_BITS, |data|, name);
    PlayAppend([Send(line), Expect], [Send(data)] + [Send([0]), Expect], wire.Flat(), wire.sent);
    FileScriptParts(mode, data, name);
    ok := SendPair(wire, line);
    if !ok {
      return;
    }
    PlaySend(data, [Send([0]), Expect], wire.Flat(), wire.sent);
    wire.sent := wire.sent + data;
    ok := SendPair(wire, [0]);
  }

  /** Plays exactly the script of the entry, stopping at the first refusal. */
  method SendEntry(wire: Wire, t: Tree, name: bytes, request: Request, depth: nat) returns (ok: bool)
    modifies wire
    ensures
      var played := Play(EntryScript(t, name, request, depth), old(wire.Flat()), old(wire.sent));
      && ok == played.ok && wire.sent == played.sent
      && (ok ==> wire.Flat() == played.incoming)
    decreases t
  {
    if depth >= MAX_RECURSION_DEPTH || t.Link? {
      return false;
    }
    ghost var times := TimesScript(t.stamp, request.preserveTimes);
    ghost var body := EntryScript(t, name, request, depth)[|times|..];
    assert EntryScript(t, name, request, depth) == times + body;
    PlayAppend(times, body, wire.Flat(), wire.sent);
    ok := SendTimes(wire, t.stamp, request.preserveTimes);
    if !ok {
      return;
    }
    match t {
      case Special(_) =>
        return false;
      case File(mode, _, data) =>
        assert body == FileScript(mode, data, name);
        ok := SendFile(wire, mode, data, name);
      case Dir(mode, _, entries) =>
        if !request.recursive {
          return false;
        }
        assert body == EnterScript(mode, name) + (EntriesScript(entries, request, depth + 1) + LEAVE);
        ok := SendDirectory(wire, mode, entries, name, request, depth);
    }
  }

  /** The D record, what lies in the directory, and the E record. */
  method SendDirectory(wire: Wire, mode: nat, entries: Entries, name: bytes, request: Request, depth: nat)
    returns (ok: bool)
    modifies wire
    ensures
      var script := EnterScript(mode, name) + (EntriesScript(entries, request, depth + 1) + LEAVE);
      var played := Play(script, old(wire.Flat()), old(wire.sent));
      && ok == played.ok && wire.sent == played.sent
      && (ok ==> wire.Flat() == played.incoming)
    decreases entries, 1
  {
    ghost var inside := EntriesScript(entries, request, depth + 1);
    PlayAppend(EnterScript(mode, name), inside + LEAVE, wire.Flat(), wire.sent);
    ok := SendPair(wire, ControlLine(LETTER_D, mode % PERMISSION_BITS, 0, name));
    if !ok {
      return;
    }
    PlayAppend(inside, LEAVE, wire.Flat(), wire.sent);
    ok := SendEntries(wire, entries, request, depth + 1);
    if !ok {
      return;
    }
    ok := SendPair(wire, [LETTER_E, NEWLINE]);
  }

  method SendEntries(wire: Wire, entries: Entries, request: Request, depth: nat) returns (ok: bool)
    modifies wire
    ensures
      var played := Play(EntriesScript(entries, request, depth), old(wire.Flat()), old(wire.sent));
      && ok == played.ok && wire.sent == played.sent
      && (ok ==> wire.Flat() == played.incoming)
    decreases entries, 0
  {
    var left := entries;
    ghost var all := Play(EntriesScript(entries, request, depth), wire.Flat(), wire.sent);
    while left.More?
      invariant left == entries || left < entries
      invariant all == Play(EntriesScript(left, request, depth), wire.Flat(), wire.sent)
      decreases left
    {
      if !Sendable(left.name) {
        return false;
      }
      PlayAppend(EntryScript(left.child, left.name, request, depth),
                 EntriesScript(left.rest, request, depth), wire.Flat(), wire.sent);
      ok := SendEntry(wire, left.child, left.name, request, depth);
      if !ok {
        return;
      }
      left := left.rest;
    }
    return true;
  }

  // ----- The requested entry -----

  function FindIn(entries: Entries, name: bytes): Option<Tree> {
    match entries
    case Nil => None
    case More(n, child, rest) => if n == name then Some(child) else FindIn(rest, name)
  }

  function Find(t: Tree, path: Path): Option<Tree>
    decreases |path|
  {
    if path == [] then Some(t)
    else if !t.Dir? then None
    else
      match FindIn(t.entries, path[0])
      case None => None
      case Some(child) => Find(child, path[1..])
  }

  /** The script of a whole source session for the entry named by the request. */
  function SourceScript(root: Tree, rootName: bytes, request: Request): Script {
    var path := Normals(request.target);
    var name := if path == [] then rootName else path[|path| - 1];
    var found := Find(root, path);
    if !ValidRelative(request.target) || found.None? || found.value.Link? || !Sendable(name) then [Abort]
    else [Expect] + EntryScript(found.value, name, request, 0)
  }

  method SendSource(wire: Wire, root: Tree, rootName: bytes, request: Request) returns (ok: bool)
    modifies wire
    ensures
      var played := Play(SourceScript(root, rootName, request), old(wire.Flat()), old(wire.sent));
      && ok == played.ok && wire.sent == played.sent
      && (ok ==> wire.Flat() == played.incoming)
  {
    var path := Normals(request.target);
    var found := Find(root, path);
    if !ValidRelative(request.target) || found.None? || found.value.Link? {
      return false;
    }
    var name := if path == [] then rootName else path[|path| - 1];
    if !Sendable(name) {
      return false;
    }
    PlayAppend([Expect], EntryScript(found.value, name, request, 0), wire.Flat(), wire.sent);
    ok := AwaitAck(wire);
    if !ok {
      return;
    }
    ok := SendEntry(wire, found.value, name, request, 0);
  }
}
