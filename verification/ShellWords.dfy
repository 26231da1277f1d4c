/**
 * The fixture's own word splitter and the scp request parser above it, and
 * what they make of an encoded remote command.
 */
module ShellWords {
  import opened Common
  import opened Quoting

  // ----- parse_shell_words -----

  predicate ControlCharacter(c: char) {
    c < '\U{0020}' || '\U{007F}' <= c <= '\U{009F}'
  }

  predicate Refused(c: char) {
    ControlCharacter(c) || c == '$' || c == '`'
  }

  predicate AsciiBlank(c: char) {
    c == ' ' || c == '\t' || c == '\n' || c == '\U{000C}' || c == '\r'
  }

  datatype Scanner = Scanner(words: seq<string>, word: string, quote: Option<char>, escaped: bool)

  const FRESH := Scanner([], "", None, false)

  /** Ends the current word; an empty word is dropped. */
  function Flush(s: Scanner): Scanner {
    if s.word == "" then s else s.(words := s.words + [s.word], word := "")
  }

  function Scan(s: Scanner, c: char): Scanner {
    if s.escaped then s.(word := s.word + [c], escaped := false)
    else if c == '\\' && s.quote != Some('\'') then s.(escaped := true)
    else if c == '\'' || c == '"' then
      if s.quote == Some(c) then s.(quote := None)
      else if s.quote == None then s.(quote := Some(c))
      else s.(word := s.word + [c])
    else if AsciiBlank(c) && s.quote == None then Flush(s)
    else s.(word := s.word + [c])
  }

  function ScanAll(s: Scanner, text: string): Scanner
    decreases |text|
  {
    if text == [] then s else ScanAll(Scan(s, text[0]), text[1..])
  }

  /** `None` is the protocol error. */
  function ParsedWords(command: string): Option<seq<string>> {
    var s := ScanAll(FRESH, command);
    if exists i :: 0 <= i < |command| && Refused(command[i]) then None
    else if s.escaped || s.quote != None then None
    else Some(Flush(s).words)
  }

  lemma {:induction false} ScanAppend(s: Scanner, a: string, b: string)
    ensures ScanAll(s, a + b) == ScanAll(ScanAll(s, a), b)
    decreases |a|
  {
    if a == [] {
      assert a + b == b;
    } else {
      assert (a + b)[1..] == a[1..] + b;
      ScanAppend(Scan(s, a[0]), a[1..], b);
    }
  }

  lemma ScanOne(s: Scanner, c: char, rest: string)
    ensures ScanAll(s, [c] + rest) == ScanAll(Scan(s, c), rest)
  {
    assert ([c] + rest)[1..] == rest;
  }

  method ParseShellWords(command: string) returns (r: Option<seq<string>>)
    ensures r == ParsedWords(command)
  {
    for i := 0 to |command|
      invariant forall k :: 0 <= k < i ==> !Refused(command[k])
    {
      if Refused(command[i]) {
        return None;
      }
    }
    var words: seq<string>, word, quote, escaped := [], "", None, false;
    for i := 0 to |command|
      invariant ScanAll(FRESH, command[..i]) == Scanner(words, word, quote, escaped)
    {
      var c := command[i];
      ScanAppend(FRESH, command[..i], [c]);
      assert command[..i + 1] == command[..i] + [c];
      ScanOne(Scanner(words, word, quote, escaped), c, "");
      assert [c] + "" == [c];
      if escaped {
        word, escaped := word + [c], false;
      } else if c == '\\' && quote != Some('\'') {
        escaped := true;
      } else if c == '\'' || c == '"' {
        if quote == Some(c) {
          quote := None;
        } else if quote == None {
          quote := Some(c);
        } else {
          word := word + [c];
        }
      } else if AsciiBlank(c) && quote == None {
        if word != "" {
          words, word := words + [word], "";
        }
      } else {
        word := word + [c];
      }
    }
    assert command[..|command|] == command;
    if escaped || quote != None {
      return None;
    }
    if word != "" {
      words := words + [word];
    }
    return Some(words);
  }

  // ----- Encoded commands -----

  /** The arguments without the empty ones, in order. */
  function NonEmpty(arguments: seq<string>): seq<string> {
    if arguments == [] then []
    else (if arguments[0] == "" then [] else [arguments[0]]) + NonEmpty(arguments[1..])
  }

  predicate Clean(argument: string) {
    forall i :: 0 <= i < |argument| ==> !Refused(argument[i])
  }

  lemma ScanQuoteCharacter(words: seq<string>, word: string, rest: string)
    ensures ScanAll(Scanner(words, word, Some('\''), false), "'\"'\"'" + rest)
         == ScanAll(Scanner(words, word + "'", Some('\''), false), rest)
  {
    assert "'\"'\"'" + rest == "'" + ("\"" + ("'" + ("\"" + ("'" + rest))));
    ScanOne(Scanner(words, word, Some('\''), false), '\'', "\"" + ("'" + ("\"" + ("'" + rest))));
    ScanOne(Scanner(words, word, None, false), '"', "'" + ("\"" + ("'" + rest)));
    ScanOne(Scanner(words, word, Some('"'), false), '\'', "\"" + ("'" + rest));
    ScanOne(Scanner(words, word + "'", Some('"'), false), '"', "'" + rest);
    ScanOne(Scanner(words, word + "'", None, false), '\'', rest);
  }

  lemma {:induction false} ScanQuotedChars(words: seq<string>, word: string, argument: string)
    ensures ScanAll(Scanner(words, word, Some('\''), false), QuoteChars(argument))
         == Scanner(words, word + argument, Some('\''), false)
    decreases |argument|
  {
    if argument == [] {
      assert word + argument == word;
    } else {
      var rest := QuoteChars(argument[1..]);
      if argument[0] == '\'' {
        ScanQuoteCharacter(words, word, rest);
      } else {
        ScanOne(Scanner(words, word, Some('\''), false), argument[0], rest);
      }
      ScanQuotedChars(words, word + [argument[0]], argument[1..]);
      assert word + [argument[0]] + argument[1..] == word + argument;
    }
  }

  lemma ScanQuoted(words: seq<string>, argument: string)
    ensures ScanAll(Scanner(words, "", None, false), Quote(argument)) == Scanner(words, argument, None, false)
  {
    assert Quote(argument) == ['\''] + (QuoteChars(argument) + "'");
    ScanOne(Scanner(words, "", None, false), '\'', QuoteChars(argument) + "'");
    ScanAppend(Scanner(words, "", Some('\''), false), QuoteChars(argument), "'");
    ScanQuotedChars(words, "", argument);
    assert "" + argument == argument;
    ScanOne(Scanner(words, argument, Some('\''), false), '\'', "");
    assert ['\''] + "" == "'";
  }

  lemma ScanFirst(words: seq<string>, first: string, rest: string)
    ensures ScanAll(Scanner(words, "", None, false), Quote(first) + (" " + rest))
         == ScanAll(Flush(Scanner(words, first, None, false)), rest)
  {
    ScanQuoted(words, first);
    ScanAppend(Scanner(words, "", None, false), Quote(first), " " + rest);
    ScanOne(Scanner(words, first, None, false), ' ', rest);
  }

  lemma {:induction false} FlushFirst(words: seq<string>, arguments: seq<string>)
    requires arguments != []
    ensures Flush(Scanner(words, arguments[0], None, false)).words + NonEmpty(arguments[1..])
         == words + NonEmpty(arguments)
  {
    var head := if arguments[0] == "" then [] else [arguments[0]];
    var rest := NonEmpty(arguments[1..]);
    assert (words + head) + rest == words + (head + rest);
    assert arguments[0] == "" ==> words + head == words;
  }

  lemma {:induction false} ScanEncoded(words: seq<string>, arguments: seq<string>)
    ensures
      var s := ScanAll(Scanner(words, "", None, false), Encode(arguments));
      !s.escaped && s.quote == None && Flush(s).words == words + NonEmpty(arguments)
    decreases |arguments|
  {
    if arguments == [] {
      assert words + NonEmpty(arguments) == words;
    } else {
      var first := arguments[0];
      if |arguments| == 1 {
        ScanQuoted(words, first);
        assert NonEmpty(arguments[1..]) == [];
      } else {
        var rest := Encode(arguments[1..]);
        ScanFirst(words, first, rest);
        ScanEncoded(Flush(Scanner(words, first, None, false)).words, arguments[1..]);
        FlushFirst(words, arguments);
      }
    }
  }

  lemma {:induction false} QuotingRefusesNothing(argument: string)
    ensures Clean(QuoteChars(argument)) <==> Clean(argument)
    decreases |argument|
  {
    if argument != [] {
      QuotingRefusesNothing(argument[1..]);
      var head := if argument[0] == '\'' then "'\"'\"'" else [argument[0]];
      assert Clean(head) <==> !Refused(argument[0]) by {
        if argument[0] != '\'' { assert head[0] == argument[0]; }
      }
      CleanAppend(head, QuoteChars(argument[1..]));
      CleanAppend([argument[0]], argument[1..]);
      assert [argument[0]] + argument[1..] == argument;
      assert Clean([argument[0]]) <==> !Refused([argument[0]][0]);
    }
  }

  lemma CleanAppend(a: string, b: string)
    ensures Clean(a + b) <==> Clean(a) && Clean(b)
  {
    if Clean(a + b) {
      assert forall i :: 0 <= i < |a| ==> a[i] == (a + b)[i];
      assert forall i :: 0 <= i < |b| ==> b[i] == (a + b)[|a| + i];
    }
  }

  lemma {:induction false} EncodedIsCleanWhenArgumentsAre(arguments: seq<string>)
    ensures Clean(Encode(arguments)) <==> forall i :: 0 <= i < |arguments| ==> Clean(arguments[i])
    decreases |arguments|
  {
    if arguments != [] {
      var first := arguments[0];
      QuotingRefusesNothing(first);
      CleanAppend("'", QuoteChars(first));
      CleanAppend("'" + QuoteChars(first), "'");
      EncodedIsCleanWhenArgumentsAre(arguments[1..]);
      CleanAppend(" ", Encode(arguments[1..]));
      CleanAppend(Quote(first), " " + Encode(arguments[1..]));
      assert forall i :: 0 < i < |arguments| ==> arguments[i] == arguments[1..][i - 1];
    }
  }

  /**
   * The splitter undoes the encoder exactly when no argument holds a control
   * character, a dollar sign or a backquote, except that it drops empty
   * arguments.
   */
  lemma SplittingUndoesEncoding(arguments: seq<string>)
    ensures ParsedWords(Encode(arguments))
         == if forall i :: 0 <= i < |arguments| ==> Clean(arguments[i]) then Some(NonEmpty(arguments)) else None
  {
    EncodedIsCleanWhenArgumentsAre(arguments);
    ScanEncoded([], arguments);
    assert [] + NonEmpty(arguments) == NonEmpty(arguments);
    var command := Encode(arguments);
    assert Clean(command) <==> !(exists i :: 0 <= i < |command| && Refused(command[i]));
  }
}
