/** The scp request parser: flags, one direction, one target. */
module ScpCommand {
  import opened Common
  import opened Quoting
  import opened ShellWords
  import ShellText

  datatype Direction = ToSink | FromSource

  datatype ScpRequest = ScpRequest(
    direction: Direction, recursive: bool, preserveTimes: bool, targetIsDirectory: bool, target: string)

  datatype Parsed = NotScp | Malformed | Accepted(request: ScpRequest)

  /** What the words read so far have set. */
  datatype Options = Options(
    direction: Option<Direction>, recursive: bool, preserveTimes: bool, targetIsDirectory: bool,
    target: Option<string>)

  const NO_OPTIONS := Options(None, false, false, false, None)

  function SetDirection(o: Options, d: Direction): Option<Options> {
    if o.direction.Some? then None else Some(o.(direction := Some(d)))
  }

  function ReadFlag(o: Options, flag: char): Option<Options> {
    match flag
    case 't' => SetDirection(o, ToSink)
    case 'f' => SetDirection(o, FromSource)
    case 'r' => Some(o.(recursive := true))
    case 'p' => Some(o.(preserveTimes := true))
    case 'd' => Some(o.(targetIsDirectory := true))
    case _ => None
  }

  function ReadFlags(o: Options, flags: string): Option<Options>
    decreases |flags|
  {
    if flags == "" then Some(o)
    else
      match ReadFlag(o, flags[0])
      case None => None
      case Some(o') => ReadFlags(o', flags[1..])
  }

  predicate IsFlagWord(word: string) {
    |word| > 1 && word[0] == '-'
  }

  function ReadWord(o: Options, word: string): Option<Options> {
    if IsFlagWord(word) then ReadFlags(o, word[1..])
    else if o.target.Some? then None
    else Some(o.(target := Some(word)))
  }

  function ReadWords(o: Options, words: seq<string>): Option<Options>
    decreases |words|
  {
    if words == [] then Some(o)
    else
      match ReadWord(o, words[0])
      case None => None
      case Some(o') => ReadWords(o', words[1..])
  }

  function Finish(o: Option<Options>): Parsed {
    if o.None? || o.value.direction.None? || o.value.target.None? then Malformed
    else
      var v := o.value;
      Accepted(ScpRequest(v.direction.value, v.recursive, v.preserveTimes, v.targetIsDirectory, v.target.value))
  }

  function Parse(command: string): Parsed {
    match ParsedWords(command)
    case None => if "scp" <= TrimStart(command) then Malformed else NotScp
    case Some(words) =>
      if words == [] || words[0] != "scp" then NotScp else Finish(ReadWords(NO_OPTIONS, words[1..]))
  }

  method ReadFlagsOf(flags: string, start: Options) returns (r: Option<Options>)
    ensures r == ReadFlags(start, flags)
  {
    var o := start;
    for i := 0 to |flags|
      invariant ReadFlags(start, flags) == ReadFlags(o, flags[i..])
    {
      assert flags[i..][1..] == flags[i + 1..];
      match flags[i] {
        case 't' =>
          if o.direction.Some? {
            return None;
          }
          o := o.(direction := Some(ToSink));
        case 'f' =>
          if o.direction.Some? {
            return None;
          }
          o := o.(direction := Some(FromSource));
        case 'r' => o := o.(recursive := true);
        case 'p' => o := o.(preserveTimes := true);
        case 'd' => o := o.(targetIsDirectory := true);
        case _ => return None;
      }
    }
    return Some(o);
  }

  method ParseScpRequest(command: string) returns (r: Parsed)
    ensures r == Parse(command)
  {
    var words := ParseShellWords(command);
    if words.None? {
      return if "scp" <= TrimStart(command) then Malformed else NotScp;
    }
    if words.value == [] || words.value[0] != "scp" {
      return NotScp;
    }
    var operands := words.value[1..];
    var o := NO_OPTIONS;
    for i := 0 to |operands|
      invariant ReadWords(NO_OPTIONS, operands) == ReadWords(o, operands[i..])
    {
      var word := operands[i];
      assert operands[i..][1..] == operands[i + 1..];
      if IsFlagWord(word) {
        var read := ReadFlagsOf(word[1..], o);
        if read.None? {
          return Malformed;
        }
        o := read.value;
      } else {
        if o.target.Some? {
          return Malformed;
        }
        o := o.(target := Some(word));
      }
    }
    return Finish(Some(o));
  }

  // ----- A request survives quoting -----

  predicate KnownFlag(c: char) {
    c in "tfrpd"
  }

  function Directions(flags: string): nat {
    if flags == "" then 0
    else (if flags[0] == 't' || flags[0] == 'f' then 1 else 0) + Directions(flags[1..])
  }

  predicate WellFormedFlags(flags: string) {
    Directions(flags) == 1 && forall i :: 0 <= i < |flags| ==> KnownFlag(flags[i])
  }

  lemma {:induction false} FlagsRead(o: Options, flags: string)
    ensures
      var r := ReadFlags(o, flags);
      var given := if o.direction.Some? then 1 else 0;
      && (r.Some? <==>
            given + Directions(flags) <= 1 && forall i :: 0 <= i < |flags| ==> KnownFlag(flags[i]))
      && (r.Some? ==>
            && r.value.direction == (if 't' in flags then Some(ToSink)
                                     else if 'f' in flags then Some(FromSource) else o.direction)
            && r.value.recursive == (o.recursive || 'r' in flags)
            && r.value.preserveTimes == (o.preserveTimes || 'p' in flags)
            && r.value.targetIsDirectory == (o.targetIsDirectory || 'd' in flags)
            && r.value.target == o.target
            && (r.value.direction.Some? <==> given + Directions(flags) == 1))
    decreases |flags|
  {
    if flags != "" {
      var c := flags[0];
      assert flags == [c] + flags[1..];
      var next := ReadFlag(o, c);
      FlagRead(o, c);
      if next.Some? {
        FlagsRead(next.value, flags[1..]);
        DirectionFlags(flags[1..]);
      }
    }
  }

  lemma FlagRead(o: Options, c: char)
    ensures
      var r := ReadFlag(o, c);
      && (r.Some? <==> KnownFlag(c) && !(o.direction.Some? && c in "tf"))
      && (r.Some? ==>
            && r.value.direction == (if c == 't' then Some(ToSink)
                                     else if c == 'f' then Some(FromSource) else o.direction)
            && r.value.recursive == (o.recursive || c == 'r')
            && r.value.preserveTimes == (o.preserveTimes || c == 'p')
            && r.value.targetIsDirectory == (o.targetIsDirectory || c == 'd')
            && r.value.target == o.target)
  {
  }

  lemma {:induction false} DirectionFlags(flags: string)
    ensures Directions(flags) == 0 <==> 't' !in flags && 'f' !in flags
    decreases |flags|
  {
    if flags != "" {
      assert flags == [flags[0]] + flags[1..];
      DirectionFlags(flags[1..]);
    }
  }

  // ----- Flag words and targets in any order -----

  /** The flags of all flag words, in order. */
  function AllFlags(words: seq<string>): string {
    if words == [] then ""
    else (if IsFlagWord(words[0]) then words[0][1..] else "") + AllFlags(words[1..])
  }

  function Targets(words: seq<string>): seq<string> {
    if words == [] then []
    else (if IsFlagWord(words[0]) then [] else [words[0]]) + Targets(words[1..])
  }

  /** Targets one after another; a second one is refused. */
  function TakeTargets(o: Options, targets: seq<string>): Option<Options> {
    if targets == [] then Some(o)
    else if o.target.Some? || |targets| > 1 then None
    else Some(o.(target := Some(targets[0])))
  }

  /** All flags first, then all targets. */
  function FlagsThenTargets(o: Options, flags: string, targets: seq<string>): Option<Options> {
    match ReadFlags(o, flags)
    case None => None
    case Some(o') => TakeTargets(o', targets)
  }

  lemma {:induction false} ReadFlagsAppend(o: Options, a: string, b: string)
    ensures ReadFlags(o, a + b) == match ReadFlags(o, a) case None => None case Some(o') => ReadFlags(o', b)
    decreases |a|
  {
    if a == "" {
      assert a + b == b;
    } else {
      assert (a + b)[0] == a[0] && (a + b)[1..] == a[1..] + b;
      if ReadFlag(o, a[0]).Some? {
        ReadFlagsAppend(ReadFlag(o, a[0]).value, a[1..], b);
      }
    }
  }

  /** Flags neither look at the target nor change it. */
  lemma {:induction false} FlagsIgnoreTarget(o: Options, flags: string, target: Option<string>)
    ensures ReadFlags(o.(target := target), flags)
         == match ReadFlags(o, flags) case None => None case Some(o') => Some(o'.(target := target))
    decreases |flags|
  {
    FlagRead(o, if flags == "" then 't' else flags[0]);
    if flags != "" && ReadFlag(o, flags[0]).Some? {
      var o' := ReadFlag(o, flags[0]).value;
      assert ReadFlag(o.(target := target), flags[0]) == Some(o'.(target := target));
      FlagsIgnoreTarget(o', flags[1..], target);
    }
  }

  /** The order of flag words and targets does not matter. */
  lemma {:induction false} WordsInAnyOrder(o: Options, words: seq<string>)
    ensures ReadWords(o, words) == FlagsThenTargets(o, AllFlags(words), Targets(words))
    decreases |words|
  {
    if words != [] {
      var rest := words[1..];
      if IsFlagWord(words[0]) {
        ReadFlagsAppend(o, words[0][1..], AllFlags(rest));
        assert Targets(words) == Targets(rest);
        if ReadWord(o, words[0]).Some? {
          WordsInAnyOrder(ReadWord(o, words[0]).value, rest);
        }
      } else {
        assert AllFlags(words) == AllFlags(rest);
        FlagsIgnoreTarget(o, AllFlags(rest), Some(words[0]));
        FlagsIgnoreTarget(o, AllFlags(rest), o.target);
        if o.target.None? {
          WordsInAnyOrder(o.(target := Some(words[0])), rest);
        }
      }
    }
  }

  lemma CleanRequestIsUnderstood(arguments: seq<string>)
    requires forall i :: 0 <= i < |arguments| ==> Clean(arguments[i])
    ensures Parse(Encode(["scp"] + arguments)) == Understood(NonEmpty(arguments))
  {
    CleanRequestSplits(arguments);
    var words := NonEmpty(arguments);
    assert (["scp"] + words)[1..] == words;
    RequestIs(words);
  }

  lemma CleanRequestSplits(arguments: seq<string>)
    requires forall i :: 0 <= i < |arguments| ==> Clean(arguments[i])
    ensures ParsedWords(Encode(["scp"] + arguments)) == Some(["scp"] + NonEmpty(arguments))
  {
    var all := ["scp"] + arguments;
    SplittingUndoesEncoding(all);
    CleanCommand(arguments);
    assert all[1..] == arguments;
  }

  lemma CleanCommand(arguments: seq<string>)
    requires forall i :: 0 <= i < |arguments| ==> Clean(arguments[i])
    ensures forall i :: 0 <= i < |["scp"] + arguments| ==> Clean((["scp"] + arguments)[i])
  {
    assert Clean("scp");
    assert forall i :: 0 < i < |["scp"] + arguments| ==> (["scp"] + arguments)[i] == arguments[i - 1];
  }

  lemma RequestIs(words: seq<string>)
    ensures Finish(ReadWords(NO_OPTIONS, words)) == Understood(words)
  {
    WordsInAnyOrder(NO_OPTIONS, words);
    FlagsRead(NO_OPTIONS, AllFlags(words));
    DirectionFlags(AllFlags(words));
  }

  /** What the request is when every argument can pass the splitter. */
  function Understood(words: seq<string>): Parsed {
    var flags, targets := AllFlags(words), Targets(words);
    if WellFormedFlags(flags) && |targets| == 1 then
      Accepted(ScpRequest(if 't' in flags then ToSink else FromSource,
                          'r' in flags, 'p' in flags, 'd' in flags, targets[0]))
    else Malformed
  }

  /** A refused command is not even taken for an scp command: it begins with a quote. */
  lemma RefusedIsNotScp(arguments: seq<string>)
    requires exists i :: 0 <= i < |arguments| && !Clean(arguments[i])
    ensures Parse(Encode(["scp"] + arguments)) == NotScp
  {
    var all := ["scp"] + arguments;
    var i :| 0 <= i < |arguments| && !Clean(arguments[i]);
    assert all[i + 1] == arguments[i];
    SplittingUndoesEncoding(all);
    BeginsWithQuote(all);
  }

  lemma BeginsWithQuote(arguments: seq<string>)
    requires arguments != []
    ensures !("scp" <= TrimStart(Encode(arguments)))
  {
    var command := Encode(arguments);
    assert Quote(arguments[0])[0] == '\'';
    assert command[0] == '\'' && !UnicodeWhitespace('\'');
    assert TrimStart(command) == command;
    assert "scp"[0] == 's';
  }

  /**
   * A quoted scp command, whatever the number and order of its flag words, is
   * understood exactly when all its flags are known, one direction is given
   * and one target; the request then is what the arguments say, whatever
   * quotes, spaces or backslashes the target contains. Empty arguments are
   * dropped. One with an argument that the splitter refuses is no scp command.
   */
  lemma QuotedRequestIsUnderstood(arguments: seq<string>)
    ensures Parse(Encode(["scp"] + arguments))
         == if forall i :: 0 <= i < |arguments| ==> Clean(arguments[i]) then Understood(NonEmpty(arguments)) else NotScp
  {
    if forall i :: 0 <= i < |arguments| ==> Clean(arguments[i]) {
      CleanRequestIsUnderstood(arguments);
    } else {
      RefusedIsNotScp(arguments);
    }
  }

  // ----- A request written in any way -----

  /** A flag word is a dash and at least one flag. */
  lemma FlagWordMeans(word: string)
    ensures IsFlagWord(word) <==> exists flags :: word == "-" + flags && flags != ""
  {
    if IsFlagWord(word) {
      assert word == "-" + word[1..];
    }
  }

  lemma {:induction false} TrimStartSkips(text: string, blanks: nat)
    requires blanks <= |text| && forall i :: 0 <= i < blanks ==> UnicodeWhitespace(text[i])
    ensures TrimStart(text) == TrimStart(text[blanks..])
    decreases blanks
  {
    if blanks > 0 {
      TrimStartSkips(text[1..], blanks - 1);
      assert text[1..][blanks - 1..] == text[blanks..];
    }
  }

  /** Behind any white space the command begins with the three letters. */
  ghost predicate BeginsWithScp(command: string) {
    exists blanks: nat :: ScpBehind(command, blanks)
  }

  predicate ScpBehind(command: string, blanks: nat) {
    && blanks + 3 <= |command| && command[blanks..blanks + 3] == "scp"
    && forall i :: 0 <= i < blanks ==> UnicodeWhitespace(command[i])
  }

  lemma {:induction false} TrimmedIsBehind(command: string) returns (blanks: nat)
    ensures blanks <= |command| && TrimStart(command) == command[blanks..]
    ensures forall i :: 0 <= i < blanks ==> UnicodeWhitespace(command[i])
  {
    if command != "" && UnicodeWhitespace(command[0]) {
      var rest := TrimmedIsBehind(command[1..]);
      assert command[1..][rest..] == command[rest + 1..];
      blanks := rest + 1;
    } else {
      assert command[0..] == command;
      blanks := 0;
    }
  }

  lemma TrimmedScp(command: string)
    ensures "scp" <= TrimStart(command) <==> BeginsWithScp(command)
  {
    if "scp" <= TrimStart(command) {
      var blanks := TrimmedIsBehind(command);
      assert command[blanks..][..3] == command[blanks..blanks + 3];
      assert ScpBehind(command, blanks);
    }
    if BeginsWithScp(command) {
      var blanks: nat :| ScpBehind(command, blanks);
      TrimStartSkips(command, blanks);
      assert command[blanks..][..3] == command[blanks..blanks + 3];
      assert command[blanks] == command[blanks..blanks + 3][0];
      assert TrimStart(command[blanks..]) == command[blanks..];
    }
  }

  /** The words of a written command, without those that stand for nothing. */
  function WordsOf(d: ShellText.Document): seq<string> {
    ShellText.Meanings(d.words) + ShellText.Meant(d.last)
  }

  predicate Splits(d: ShellText.Document) {
    d.tail == ShellText.Complete && ShellText.Permitted(ShellText.Written(d))
  }

  /**
   * Whatever the command: one that splits is an scp request if its first word
   * is `scp`, and its other words say which; one that does not split is a
   * broken scp request if it begins with the three letters; nothing else
   * concerns scp.
   */
  lemma EveryCommandIsRead(d: ShellText.Document)
    requires ShellText.LegalDocument(d)
    ensures Parse(ShellText.Written(d)) ==
      if Splits(d) then
        if WordsOf(d) != [] && WordsOf(d)[0] == "scp" then Understood(WordsOf(d)[1..]) else NotScp
      else if BeginsWithScp(ShellText.Written(d)) then Malformed else NotScp
  {
    ShellText.WrittenIsSplit(d);
    TrimmedScp(ShellText.Written(d));
    if Splits(d) && WordsOf(d) != [] {
      RequestIs(WordsOf(d)[1..]);
    }
  }

  /** What one more word in front adds. */
  lemma WordInFront(word: string, flags: string, words: seq<string>)
    ensures word == "-" + flags && flags != "" ==>
      AllFlags([word] + words) == flags + AllFlags(words) && Targets([word] + words) == Targets(words)
    ensures word == "-" || word == "" || word[0] != '-' ==>
      AllFlags([word] + words) == AllFlags(words) && Targets([word] + words) == [word] + Targets(words)
  {
    assert ([word] + words)[1..] == words;
    assert "" + AllFlags(words) == AllFlags(words);
    if word == "-" + flags {
      assert word[1..] == flags;
    }
  }

  lemma FlagsInFront(target: string)
    requires target == "-" || (target != "" && target[0] != '-')
    ensures AllFlags(["-r", "-p", "-t", target]) == "rpt" && Targets(["-r", "-p", "-t", target]) == [target]
  {
    WordInFront(target, "", []);
    assert [target] + [] == [target];
    WordInFront("-t", "t", [target]);
    assert ["-t"] + [target] == ["-t", target];
    WordInFront("-p", "p", ["-t", target]);
    assert ["-p"] + ["-t", target] == ["-p", "-t", target];
    WordInFront("-r", "r", ["-p", "-t", target]);
    assert ["-r"] + ["-p", "-t", target] == ["-r", "-p", "-t", target];
  }

  lemma FlagsBehind(target: string)
    requires target == "-" || (target != "" && target[0] != '-')
    ensures AllFlags([target, "-df"]) == "df" && Targets([target, "-df"]) == [target]
  {
    WordInFront("-df", "df", []);
    assert ["-df"] + [] == ["-df"];
    WordInFront(target, "", ["-df"]);
    assert [target] + ["-df"] == [target, "-df"];
  }

  lemma Counted(flags: string)
    ensures flags == "rpt" || flags == "df" ==> WellFormedFlags(flags)
  {
    assert flags != "" ==> Directions(flags[1..]) == if |flags| == 1 then 0 else Directions(flags[1..]);
    assert |flags| == 2 ==> Directions(flags[1..][1..]) == 0;
    assert |flags| == 3 ==> Directions(flags[1..][1..][1..]) == 0;
  }

  /** Flags in one word or several, before or behind the target; a lone dash is a target. */
  lemma UsualRequests(target: string)
    requires target == "-" || (target != "" && target[0] != '-')
    ensures Understood(["-r", "-p", "-t", target]) == Accepted(ScpRequest(ToSink, true, true, false, target))
    ensures Understood([target, "-df"]) == Accepted(ScpRequest(FromSource, false, false, true, target))
  {
    FlagsInFront(target);
    FlagsBehind(target);
    Counted("rpt");
    Counted("df");
  }
}
