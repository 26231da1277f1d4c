/**
 * Quoting of remote commands, against a tokeniser for the shell language of
 * IEEE Std 1003.1-2017 (sections 2.2.1 to 2.2.3 and 2.3).
 */
module Quoting {
  import opened Common

  // ----- The encoder -----

  /** A single quote is closed, double-quoted and reopened; other characters stay. */
  function QuoteChars(argument: string): string {
    if argument == [] then []
    else (if argument[0] == '\'' then "'\"'\"'" else [argument[0]]) + QuoteChars(argument[1..])
  }

  function Quote(argument: string): string {
    "'" + QuoteChars(argument) + "'"
  }

  function Encode(arguments: seq<string>): string {
    if arguments == [] then ""
    else if |arguments| == 1 then Quote(arguments[0])
    else Quote(arguments[0]) + (" " + Encode(arguments[1..]))
  }

  lemma {:induction false} QuoteCharsSnoc(argument: string, c: char)
    ensures QuoteChars(argument + [c]) == QuoteChars(argument) + QuoteChars([c])
  {
    if argument == [] {
      assert argument + [c] == [c];
    } else {
      assert (argument + [c])[1..] == argument[1..] + [c];
      QuoteCharsSnoc(argument[1..], c);
    }
  }

  method QuoteArgument(argument: string) returns (quoted: string)
    ensures quoted == Quote(argument)
  {
    quoted := "'";
    for i := 0 to |argument|
      invariant quoted == "'" + QuoteChars(argument[..i])
    {
      QuoteCharsSnoc(argument[..i], argument[i]);
      assert argument[..i + 1] == argument[..i] + [argument[i]];
      assert [argument[i]][1..] == "";
      if argument[i] == '\'' {
        quoted := quoted + "'\"'\"'";
      } else {
        quoted := quoted + [argument[i]];
      }
    }
    assert argument[..|argument|] == argument;
    quoted := quoted + "'";
  }

  lemma {:induction false} EncodeSnoc(arguments: seq<string>, last: string)
    ensures Encode(arguments + [last])
         == Encode(arguments) + (if arguments == [] then "" else " ") + Quote(last)
  {
    if arguments == [] {
      assert arguments + [last] == [last];
    } else {
      var rest := arguments[1..];
      assert (arguments + [last])[1..] == rest + [last];
      EncodeSnoc(rest, last);
      Regroup(Quote(arguments[0]), Encode(rest), Quote(last));
    }
  }

  lemma Regroup(a: string, b: string, c: string)
    ensures a + (" " + (b + " " + c)) == a + (" " + b) + " " + c
    ensures a + (" " + ("" + "" + c)) == a + " " + c
  {
  }

  method EncodePosixRemoteCommand(arguments: seq<string>) returns (command: string)
    ensures command == Encode(arguments)
  {
    command := "";
    for i := 0 to |arguments|
      invariant command == Encode(arguments[..i])
    {
      EncodeSnoc(arguments[..i], arguments[i]);
      assert arguments[..i + 1] == arguments[..i] + [arguments[i]];
      var quoted := QuoteArgument(arguments[i]);
      command := command + (if i == 0 then "" else " ") + quoted;
    }
    assert arguments[..|arguments|] == arguments;
  }

  lemma {:induction false} QuoteCharsAppend(a: string, b: string)
    ensures QuoteChars(a + b) == QuoteChars(a) + QuoteChars(b)
    decreases |b|
  {
    if b == [] {
      assert a + b == a;
      assert QuoteChars(a) + [] == QuoteChars(a);
    } else {
      var init, last := b[..|b| - 1], b[|b| - 1];
      assert b == init + [last] && a + b == (a + init) + [last];
      QuoteCharsAppend(a, init);
      QuoteCharsSnoc(a + init, last);
      QuoteCharsSnoc(init, last);
    }
  }

  lemma {:induction false} PlainStays(argument: string)
    requires '\'' !in argument
    ensures QuoteChars(argument) == argument
  {
    if argument != [] {
      PlainStays(argument[1..]);
      assert argument == [argument[0]] + argument[1..];
    }
  }

  /**
   * An argument without a single quote stands between two of them as it is;
   * a single quote is written as a closing quote, a double-quoted quote and
   * an opening quote.
   */
  lemma QuotedLiterally(a: string, b: string)
    requires '\'' !in a && '\'' !in b
    ensures Quote(a) == "'" + a + "'"
    ensures Quote(a + "'" + b) == "'" + (a + "'\"'\"'" + b) + "'"
  {
    PlainStays(a);
    PlainStays(b);
    QuoteCharsAppend(a, "'");
    QuoteCharsAppend(a + "'", b);
    QuotedQuote();
  }

  lemma QuotedQuote()
    ensures QuoteChars("'") == "'\"'\"'"
  {
    assert "'"[1..] == [];
    assert "'\"'\"'" + [] == "'\"'\"'";
  }

  // ----- The shell's tokeniser -----

  /** How a character of a word was quoted. */
  datatype Quotation = Unquoted | Escaped | SingleQuoted | DoubleQuoted

  datatype Marked = Marked(c: char, quotation: Quotation)

  type Word = seq<Marked>

  datatype Mode = Bare | BareEscape | Single | Double | DoubleEscape

  /** `Stuck` stands for operators, expansions, patterns and comments: not a plain list of words. */
  datatype Lexer = Lexer(words: seq<Word>, word: Option<Word>, mode: Mode) | Stuck

  const EMPTY := Lexer([], None, Bare)

  predicate Blank(c: char) {
    c == ' ' || c == '\t'
  }

  /** Characters that have to be quoted to stand for themselves (section 2.2). */
  predicate MustQuote(c: char) {
    c in "|&;<>()$`\\\"' \t\n*?[#~=%"
  }

  function Current(lexer: Lexer): Word
    requires lexer.Lexer?
  {
    if lexer.word.Some? then lexer.word.value else []
  }

  function Append(lexer: Lexer, c: char, quotation: Quotation, next: Mode): Lexer
    requires lexer.Lexer?
  {
    Lexer(lexer.words, Some(Current(lexer) + [Marked(c, quotation)]), next)
  }

  function Delimit(lexer: Lexer): Lexer
    requires lexer.Lexer?
  {
    if lexer.word.Some? then Lexer(lexer.words + [lexer.word.value], None, Bare) else lexer
  }

  function Step(lexer: Lexer, c: char): Lexer {
    match lexer
    case Stuck => Stuck
    case Lexer(_, _, Bare) =>
      if c == '\'' then lexer.(word := Some(Current(lexer)), mode := Single)
      else if c == '"' then lexer.(word := Some(Current(lexer)), mode := Double)
      else if c == '\\' then lexer.(mode := BareEscape)
      else if Blank(c) then Delimit(lexer)
      else if MustQuote(c) then Stuck
      else Append(lexer, c, Unquoted, Bare)
    case Lexer(_, _, BareEscape) =>
      if c == '\n' then lexer.(mode := Bare) else Append(lexer, c, Escaped, Bare)
    case Lexer(_, _, Single) =>
      if c == '\'' then lexer.(mode := Bare) else Append(lexer, c, SingleQuoted, Single)
    case Lexer(_, _, Double) =>
      if c == '"' then lexer.(mode := Bare)
      else if c == '\\' then lexer.(mode := DoubleEscape)
      else if c == '$' || c == '`' then Stuck
      else Append(lexer, c, DoubleQuoted, Double)
    case Lexer(_, _, DoubleEscape) =>
      if c == '\n' then lexer.(mode := Double)
      else if c in "$`\"\\" then Append(lexer, c, DoubleQuoted, Double)
      else Append(Append(lexer, '\\', DoubleQuoted, Double), c, DoubleQuoted, Double)
  }

  function Lex(lexer: Lexer, text: string): Lexer
    decreases |text|
  {
    if text == [] then lexer else Lex(Step(lexer, text[0]), text[1..])
  }

  /** The fields of a command that consists of plain words only. */
  function Tokenise(command: string): Option<seq<Word>> {
    match Lex(EMPTY, command)
    case Stuck => None
    case Lexer(words, word, mode) =>
      if mode != Bare then None
      else Some(words + if word.Some? then [word.value] else [])
  }

  /** A word after quote removal. */
  function Plain(word: Word): (s: string)
    ensures |s| == |word| && forall i :: 0 <= i < |s| ==> s[i] == word[i].c
  {
    seq(|word|, i requires 0 <= i < |word| => word[i].c)
  }

  function PlainWords(words: seq<Word>): (plain: seq<string>)
    ensures |plain| == |words| && forall i :: 0 <= i < |plain| ==> plain[i] == Plain(words[i])
  {
    seq(|words|, i requires 0 <= i < |words| => Plain(words[i]))
  }

  // ----- What the shell makes of an encoded command -----

  /** Each character of an argument, quoted: a single quote by double quotes, others by single. */
  function Mark(argument: string): (word: Word)
    ensures |word| == |argument|
    ensures forall i :: 0 <= i < |word| ==>
      word[i] == Marked(argument[i], if argument[i] == '\'' then DoubleQuoted else SingleQuoted)
  {
    seq(|argument|, i requires 0 <= i < |argument| =>
      Marked(argument[i], if argument[i] == '\'' then DoubleQuoted else SingleQuoted))
  }

  function MarkAll(arguments: seq<string>): (words: seq<Word>)
    ensures |words| == |arguments| && forall i :: 0 <= i < |words| ==> words[i] == Mark(arguments[i])
  {
    seq(|arguments|, i requires 0 <= i < |arguments| => Mark(arguments[i]))
  }

  lemma {:induction false} LexAppend(lexer: Lexer, a: string, b: string)
    ensures Lex(lexer, a + b) == Lex(Lex(lexer, a), b)
    decreases |a|
  {
    if a == [] {
      assert a + b == b;
    } else {
      assert (a + b)[1..] == a[1..] + b;
      LexAppend(Step(lexer, a[0]), a[1..], b);
    }
  }

  lemma LexOne(lexer: Lexer, c: char, rest: string)
    ensures Lex(lexer, [c] + rest) == Lex(Step(lexer, c), rest)
  {
    assert ([c] + rest)[1..] == rest;
  }

  /** Closing, double-quoting and reopening adds one quote character to the word. */
  lemma LexQuoteCharacter(words: seq<Word>, word: Word, rest: string)
    ensures Lex(Lexer(words, Some(word), Single), "'\"'\"'" + rest)
         == Lex(Lexer(words, Some(word + [Marked('\'', DoubleQuoted)]), Single), rest)
  {
    assert "'\"'\"'" + rest == "'" + ("\"" + ("'" + ("\"" + ("'" + rest))));
    LexOne(Lexer(words, Some(word), Single), '\'', "\"" + ("'" + ("\"" + ("'" + rest))));
    LexOne(Lexer(words, Some(word), Bare), '"', "'" + ("\"" + ("'" + rest)));
    LexOne(Lexer(words, Some(word), Double), '\'', "\"" + ("'" + rest));
    var word' := word + [Marked('\'', DoubleQuoted)];
    LexOne(Lexer(words, Some(word'), Double), '"', "'" + rest);
    LexOne(Lexer(words, Some(word'), Bare), '\'', rest);
  }

  lemma {:induction false} LexQuotedChars(words: seq<Word>, word: Word, argument: string)
    ensures Lex(Lexer(words, Some(word), Single), QuoteChars(argument))
         == Lexer(words, Some(word + Mark(argument)), Single)
    decreases |argument|
  {
    if argument == [] {
      assert word + Mark(argument) == word;
    } else {
      var rest := QuoteChars(argument[1..]);
      var first := Mark(argument)[0];
      if argument[0] == '\'' {
        LexQuoteCharacter(words, word, rest);
      } else {
        LexOne(Lexer(words, Some(word), Single), argument[0], rest);
      }
      LexQuotedChars(words, word + [first], argument[1..]);
      assert word + [first] + Mark(argument[1..]) == word + Mark(argument);
    }
  }

  lemma LexQuoted(words: seq<Word>, argument: string)
    ensures Lex(Lexer(words, None, Bare), Quote(argument)) == Lexer(words, Some(Mark(argument)), Bare)
  {
    var start := Lexer(words, None, Bare);
    assert Quote(argument) == ['\''] + (QuoteChars(argument) + "'");
    LexOne(start, '\'', QuoteChars(argument) + "'");
    LexAppend(Lexer(words, Some([]), Single), QuoteChars(argument), "'");
    LexQuotedChars(words, [], argument);
    assert [] + Mark(argument) == Mark(argument);
    LexOne(Lexer(words, Some(Mark(argument)), Single), '\'', "");
    assert ['\''] + "" == "'";
  }

  lemma {:induction false} LexEncoded(words: seq<Word>, arguments: seq<string>)
    requires arguments != []
    ensures Lex(Lexer(words, None, Bare), Encode(arguments))
         == Lexer(words + MarkAll(arguments[..|arguments| - 1]), Some(Mark(arguments[|arguments| - 1])), Bare)
    decreases |arguments|
  {
    var first := arguments[0];
    LexQuoted(words, first);
    if |arguments| == 1 {
      assert words + MarkAll(arguments[..0]) == words;
    } else {
      var rest := Encode(arguments[1..]);
      LexAppend(Lexer(words, None, Bare), Quote(first), " " + rest);
      LexOne(Lexer(words, Some(Mark(first)), Bare), ' ', rest);
      LexEncoded(words + [Mark(first)], arguments[1..]);
      assert words + [Mark(first)] + MarkAll(arguments[1..][..|arguments| - 2])
          == words + MarkAll(arguments[..|arguments| - 1]);
    }
  }

  /**
   * For every argument vector the shell sees exactly that vector, with every
   * argument character inside quotes.
   */
  lemma EncodedIsTokenised(arguments: seq<string>)
    ensures Tokenise(Encode(arguments)) == Some(MarkAll(arguments))
    ensures PlainWords(MarkAll(arguments)) == arguments
  {
    if arguments == [] {
      var none: seq<Word> := [];
      assert MarkAll(arguments) == none && none + none == none;
      assert Lex(EMPTY, "") == EMPTY;
    } else {
      LexEncoded([], arguments);
      assert [] + MarkAll(arguments[..|arguments| - 1]) + [Mark(arguments[|arguments| - 1])]
          == MarkAll(arguments);
    }
    forall i | 0 <= i < |arguments|
      ensures PlainWords(MarkAll(arguments))[i] == arguments[i]
    {
      assert Plain(Mark(arguments[i])) == arguments[i];
    }
  }

  lemma EncodingIsInjective(a: seq<string>, b: seq<string>)
    requires Encode(a) == Encode(b)
    ensures a == b
  {
    EncodedIsTokenised(a);
    EncodedIsTokenised(b);
  }
}
