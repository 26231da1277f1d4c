/**
 * The grammar of the word splitter's commands: what is plain, escaped,
 * single-quoted and double-quoted, how it is written and what it stands for.
 * A document is a list of words with the blanks between them and an unfinished
 * tail; every command is one, so the splitter is described without a look at
 * its states.
 */
module ShellText {
  import opened Common
  import opened ShellWords

  /** A character, written as itself or behind a backslash. */
  datatype Glyph = Glyph(c: char, escaped: bool)

  datatype Piece = Open(glyph: Glyph) | Single(text: string) | Double(glyphs: seq<Glyph>)

  /** What is left unfinished at the end of a command. */
  datatype Tail = Complete | Backslash | InSingle(text: string) | InDouble(glyphs: seq<Glyph>, backslash: bool)

  /** A word and the blank behind it; a word without pieces stands for nothing. */
  datatype Spaced = Spaced(word: seq<Piece>, blank: char)

  datatype Document = Document(words: seq<Spaced>, last: seq<Piece>, tail: Tail)

  // ----- How it is written -----

  function GlyphText(g: Glyph): string {
    if g.escaped then ['\\', g.c] else [g.c]
  }

  function GlyphsText(glyphs: seq<Glyph>): string {
    if glyphs == [] then ""
    else GlyphsText(glyphs[..|glyphs| - 1]) + GlyphText(glyphs[|glyphs| - 1])
  }

  function PieceText(p: Piece): string {
    match p
    case Open(glyph) => GlyphText(glyph)
    case Single(text) => ['\''] + text + ['\'']
    case Double(glyphs) => ['"'] + GlyphsText(glyphs) + ['"']
  }

  function WordText(word: seq<Piece>): string {
    if word == [] then "" else WordText(word[..|word| - 1]) + PieceText(word[|word| - 1])
  }

  function WordsText(words: seq<Spaced>): string {
    if words == [] then ""
    else WordsText(words[..|words| - 1]) + (WordText(words[|words| - 1].word) + [words[|words| - 1].blank])
  }

  function TailText(tail: Tail): string {
    match tail
    case Complete => ""
    case Backslash => ['\\']
    case InSingle(text) => ['\''] + text
    case InDouble(glyphs, false) => ['"'] + GlyphsText(glyphs)
    case InDouble(glyphs, true) => ['"'] + GlyphsText(glyphs) + ['\\']
  }

  function Finished(d: Document): string {
    WordsText(d.words) + WordText(d.last)
  }

  function Written(d: Document): string {
    Finished(d) + TailText(d.tail)
  }

  // ----- What may stand where -----

  predicate Legal(p: Piece) {
    match p
    case Open(g) => !g.escaped ==> g.c !in "\\'\" \t\n\r\U{000C}"
    case Single(text) => '\'' !in text
    case Double(glyphs) => LegalGlyphs(glyphs)
  }

  /** Between double quotes. */
  predicate LegalGlyphs(glyphs: seq<Glyph>) {
    forall i :: 0 <= i < |glyphs| && !glyphs[i].escaped ==> glyphs[i].c != '\\' && glyphs[i].c != '"'
  }

  predicate LegalWord(word: seq<Piece>) {
    forall i :: 0 <= i < |word| ==> Legal(word[i])
  }

  predicate LegalTail(tail: Tail) {
    match tail
    case InSingle(text) => '\'' !in text
    case InDouble(glyphs, _) => LegalGlyphs(glyphs)
    case _ => true
  }

  predicate LegalDocument(d: Document) {
    && (forall i :: 0 <= i < |d.words| ==> LegalWord(d.words[i].word) && d.words[i].blank in " \t\n\r\U{000C}")
    && LegalWord(d.last) && LegalTail(d.tail)
  }

  // ----- What it stands for -----

  function Characters(glyphs: seq<Glyph>): (text: string)
    ensures |text| == |glyphs| && forall i :: 0 <= i < |text| ==> text[i] == glyphs[i].c
  {
    seq(|glyphs|, i requires 0 <= i < |glyphs| => glyphs[i].c)
  }

  function PieceMeaning(p: Piece): string {
    match p
    case Open(glyph) => [glyph.c]
    case Single(text) => text
    case Double(glyphs) => Characters(glyphs)
  }

  function Meaning(word: seq<Piece>): string {
    if word == [] then "" else Meaning(word[..|word| - 1]) + PieceMeaning(word[|word| - 1])
  }

  /** The words that stand for something, in order. */
  function Meanings(words: seq<Spaced>): seq<string> {
    if words == [] then []
    else Meanings(words[..|words| - 1]) + Meant(words[|words| - 1].word)
  }

  function Meant(word: seq<Piece>): seq<string> {
    if Meaning(word) == "" then [] else [Meaning(word)]
  }

  // ----- The splitter reads what is written -----

  lemma ScanText(s: Scanner, a: string, c: char)
    ensures ScanAll(s, a + [c]) == Scan(ScanAll(s, a), c)
  {
    ScanAppend(s, a, [c]);
    ScanOne(ScanAll(s, a), c, "");
    assert [c] + "" == [c];
  }

  lemma ScanGlyph(words: seq<string>, word: string, quote: Option<char>, g: Glyph)
    requires quote == None || quote == Some('"')
    requires quote == None ==> Legal(Open(g))
    requires quote == Some('"') ==> LegalGlyphs([g])
    ensures ScanAll(Scanner(words, word, quote, false), GlyphText(g)) == Scanner(words, word + [g.c], quote, false)
  {
    var s := Scanner(words, word, quote, false);
    assert [g][0] == g;
    ScanText(s, "", if g.escaped then '\\' else g.c);
    assert "" + [g.c] == [g.c] && "" + ['\\'] == ['\\'];
    if g.escaped {
      ScanText(s, ['\\'], g.c);
      assert ['\\'] + [g.c] == ['\\', g.c];
    }
  }

  lemma {:induction false} ScanGlyphs(words: seq<string>, word: string, glyphs: seq<Glyph>)
    requires LegalGlyphs(glyphs)
    ensures ScanAll(Scanner(words, word, Some('"'), false), GlyphsText(glyphs))
         == Scanner(words, word + Characters(glyphs), Some('"'), false)
  {
    if glyphs == [] {
      assert word + Characters(glyphs) == word;
    } else {
      var init, last := glyphs[..|glyphs| - 1], glyphs[|glyphs| - 1];
      ScanGlyphs(words, word, init);
      ScanAppend(Scanner(words, word, Some('"'), false), GlyphsText(init), GlyphText(last));
      ScanGlyph(words, word + Characters(init), Some('"'), last);
      assert word + Characters(init) + [last.c] == word + Characters(glyphs);
    }
  }

  lemma {:induction false} ScanSingle(words: seq<string>, word: string, text: string)
    requires '\'' !in text
    ensures ScanAll(Scanner(words, word, Some('\''), false), text)
         == Scanner(words, word + text, Some('\''), false)
  {
    if text == "" {
      assert word + text == word;
    } else {
      var init, last := text[..|text| - 1], text[|text| - 1];
      ScanSingle(words, word, init);
      assert text == init + [last];
      ScanText(Scanner(words, word, Some('\''), false), init, last);
      assert word + init + [last] == word + text;
    }
  }

  /** Opening a quote. */
  lemma ScanOpening(words: seq<string>, word: string, quote: char, text: string)
    requires quote == '\'' || quote == '"'
    ensures ScanAll(Scanner(words, word, None, false), [quote] + text)
         == ScanAll(Scanner(words, word, Some(quote), false), text)
  {
    ScanOne(Scanner(words, word, None, false), quote, text);
  }

  lemma ScanPiece(words: seq<string>, word: string, p: Piece)
    requires Legal(p)
    ensures ScanAll(Scanner(words, word, None, false), PieceText(p))
         == Scanner(words, word + PieceMeaning(p), None, false)
  {
    match p {
      case Open(glyph) => ScanGlyph(words, word, None, glyph);
      case Single(text) => ScanSinglePiece(words, word, text);
      case Double(glyphs) => ScanDoublePiece(words, word, glyphs);
    }
  }

  lemma ScanSinglePiece(words: seq<string>, word: string, text: string)
    requires '\'' !in text
    ensures ScanAll(Scanner(words, word, None, false), ['\''] + text + ['\''])
         == Scanner(words, word + text, None, false)
  {
    ScanOpening(words, word, '\'', text);
    ScanSingle(words, word, text);
    ScanText(Scanner(words, word, None, false), ['\''] + text, '\'');
  }

  lemma ScanDoublePiece(words: seq<string>, word: string, glyphs: seq<Glyph>)
    requires LegalGlyphs(glyphs)
    ensures ScanAll(Scanner(words, word, None, false), ['"'] + GlyphsText(glyphs) + ['"'])
         == Scanner(words, word + Characters(glyphs), None, false)
  {
    ScanOpening(words, word, '"', GlyphsText(glyphs));
    ScanGlyphs(words, word, glyphs);
    ScanText(Scanner(words, word, None, false), ['"'] + GlyphsText(glyphs), '"');
  }

  lemma {:induction false} ScanWord(words: seq<string>, word: seq<Piece>)
    requires LegalWord(word)
    ensures ScanAll(Scanner(words, "", None, false), WordText(word)) == Scanner(words, Meaning(word), None, false)
  {
    if word != [] {
      var init, last := word[..|word| - 1], word[|word| - 1];
      ScanWord(words, init);
      ScanAppend(Scanner(words, "", None, false), WordText(init), PieceText(last));
      ScanPiece(words, Meaning(init), last);
    }
  }

  lemma FlushMeant(words: seq<string>, word: seq<Piece>)
    ensures Flush(Scanner(words, Meaning(word), None, false)) == Scanner(words + Meant(word), "", None, false)
  {
    assert words + [] == words;
  }

  lemma {:induction false} ScanWords(words: seq<Spaced>)
    requires forall i :: 0 <= i < |words| ==> LegalWord(words[i].word) && words[i].blank in " \t\n\r\U{000C}"
    ensures ScanAll(FRESH, WordsText(words)) == Scanner(Meanings(words), "", None, false)
  {
    if words != [] {
      var init, last := words[..|words| - 1], words[|words| - 1];
      ScanWords(init);
      ScanAppend(FRESH, WordsText(init), WordText(last.word) + [last.blank]);
      ScanWord(Meanings(init), last.word);
      ScanText(Scanner(Meanings(init), "", None, false), WordText(last.word), last.blank);
      FlushMeant(Meanings(init), last.word);
    }
  }

  /** An unfinished tail leaves a quote open or a backslash without its character. */
  lemma ScanTail(words: seq<string>, word: string, tail: Tail)
    requires LegalTail(tail)
    ensures
      var s := ScanAll(Scanner(words, word, None, false), TailText(tail));
      && (s.escaped || s.quote != None <==> tail != Complete)
      && (tail == Complete ==> s == Scanner(words, word, None, false))
  {
    match tail {
      case Complete =>
      case Backslash =>
        ScanText(Scanner(words, word, None, false), "", '\\');
        assert "" + ['\\'] == ['\\'];
      case InSingle(text) =>
        ScanOpening(words, word, '\'', text);
        ScanSingle(words, word, text);
      case InDouble(glyphs, backslash) =>
        ScanOpening(words, word, '"', GlyphsText(glyphs));
        ScanGlyphs(words, word, glyphs);
        ScanText(Scanner(words, word, None, false), ['"'] + GlyphsText(glyphs), '\\');
    }
  }

  lemma ScanWritten(d: Document)
    requires LegalDocument(d)
    ensures
      var s := ScanAll(FRESH, Written(d));
      && (s.escaped || s.quote != None <==> d.tail != Complete)
      && (d.tail == Complete ==> Flush(s).words == Meanings(d.words) + Meant(d.last))
  {
    ScanWords(d.words);
    ScanAppend(FRESH, WordsText(d.words), WordText(d.last));
    ScanWord(Meanings(d.words), d.last);
    ScanAppend(FRESH, Finished(d), TailText(d.tail));
    ScanTail(Meanings(d.words), Meaning(d.last), d.tail);
    FlushMeant(Meanings(d.words), d.last);
  }

  /** No control character, no dollar sign, no backquote. */
  predicate Permitted(command: string) {
    forall i :: 0 <= i < |command| ==>
      !((command[i] as int) < 32 || 127 <= command[i] as int < 160 || command[i] in "$`")
  }

  /**
   * What a written command splits into: plain and escaped characters and
   * quoted stretches stand for their characters, neighbours join into one
   * word, blanks separate words, and words that stand for nothing are
   * dropped. A forbidden character, an open quote or a last backslash refuses
   * the command.
   */
  lemma WrittenIsSplit(d: Document)
    requires LegalDocument(d)
    ensures ParsedWords(Written(d))
         == if d.tail == Complete && Permitted(Written(d)) then Some(Meanings(d.words) + Meant(d.last)) else None
  {
    ScanWritten(d);
    var command := Written(d);
    assert forall i :: 0 <= i < |command| ==>
      (Refused(command[i]) <==>
        ((command[i] as int) < 32 || 127 <= command[i] as int < 160 || command[i] in "$`"));
  }

  // ----- Every command is written in one of these ways -----

  function Began(d: Document, c: char): Document {
    if c == '\\' then d.(tail := Backslash)
    else if c == '\'' then d.(tail := InSingle(""))
    else if c == '"' then d.(tail := InDouble([], false))
    else if c in " \t\n\r\U{000C}" then Document(d.words + [Spaced(d.last, c)], [], Complete)
    else Completed(d, Open(Glyph(c, false)))
  }

  function Completed(d: Document, p: Piece): Document {
    Document(d.words, d.last + [p], Complete)
  }

  /** The document with one more character. */
  function Extended(d: Document, c: char): Document {
    match d.tail
    case Complete => Began(d, c)
    case Backslash => Completed(d, Open(Glyph(c, true)))
    case InSingle(text) => if c == '\'' then Completed(d, Single(text)) else d.(tail := InSingle(text + [c]))
    case InDouble(glyphs, true) => d.(tail := InDouble(glyphs + [Glyph(c, true)], false))
    case InDouble(glyphs, false) =>
      if c == '"' then Completed(d, Double(glyphs))
      else if c == '\\' then d.(tail := InDouble(glyphs, true))
      else d.(tail := InDouble(glyphs + [Glyph(c, false)], false))
  }

  lemma GlyphsSnoc(glyphs: seq<Glyph>, g: Glyph)
    ensures GlyphsText(glyphs + [g]) == GlyphsText(glyphs) + GlyphText(g)
  {
    assert (glyphs + [g])[..|glyphs|] == glyphs;
  }

  lemma Associate(a: string, b: string, c: string)
    ensures (a + b) + c == a + (b + c)
  {
  }

  lemma CompletedIsWritten(d: Document, p: Piece)
    ensures Written(Completed(d, p)) == Finished(d) + PieceText(p)
  {
    assert (d.last + [p])[..|d.last|] == d.last;
    Associate(WordsText(d.words), WordText(d.last), PieceText(p));
    assert Finished(d) + PieceText(p) + "" == Finished(d) + PieceText(p);
  }

  lemma SpacedIsWritten(d: Document, c: char)
    ensures Written(Document(d.words + [Spaced(d.last, c)], [], Complete)) == Finished(d) + [c]
  {
    assert (d.words + [Spaced(d.last, c)])[..|d.words|] == d.words;
    Associate(WordsText(d.words), WordText(d.last), [c]);
    assert Finished(d) + [c] + "" + "" == Finished(d) + [c];
  }

  lemma TailGrows(d: Document, tail: Tail, c: char)
    requires TailText(tail) == TailText(d.tail) + [c]
    ensures Written(d.(tail := tail)) == Written(d) + [c]
  {
    Associate(Finished(d), TailText(d.tail), [c]);
    assert Finished(d.(tail := tail)) == Finished(d);
  }

  lemma TailEnds(d: Document, p: Piece, c: char)
    requires PieceText(p) == TailText(d.tail) + [c]
    ensures Written(Completed(d, p)) == Written(d) + [c]
  {
    CompletedIsWritten(d, p);
    Associate(Finished(d), TailText(d.tail), [c]);
  }

  lemma BeganIsWritten(d: Document, c: char)
    requires d.tail == Complete
    ensures Written(Began(d, c)) == Written(d) + [c]
  {
    assert "" + [c] == [c];
    if c == '\\' {
      TailGrows(d, Backslash, c);
    } else if c == '\'' {
      assert ['\''] + "" == [c];
      TailGrows(d, InSingle(""), c);
    } else if c == '"' {
      assert GlyphsText([]) == "" && ['"'] + "" == [c];
      TailGrows(d, InDouble([], false), c);
    } else if c in " \t\n\r\U{000C}" {
      SpacedIsWritten(d, c);
      assert Finished(d) + "" == Finished(d);
    } else {
      TailEnds(d, Open(Glyph(c, false)), c);
    }
  }

  lemma SingleIsWritten(d: Document, text: string, c: char)
    requires d.tail == InSingle(text)
    ensures Written(Extended(d, c)) == Written(d) + [c]
  {
    if c == '\'' {
      TailEnds(d, Single(text), c);
    } else {
      Associate(['\''], text, [c]);
      TailGrows(d, InSingle(text + [c]), c);
    }
  }

  lemma DoubleIsWritten(d: Document, glyphs: seq<Glyph>, c: char)
    requires d.tail == InDouble(glyphs, false)
    ensures Written(Extended(d, c)) == Written(d) + [c]
  {
    if c == '"' {
      TailEnds(d, Double(glyphs), c);
    } else if c == '\\' {
      TailGrows(d, InDouble(glyphs, true), c);
    } else {
      GlyphsSnoc(glyphs, Glyph(c, false));
      Associate(['"'], GlyphsText(glyphs), [c]);
      TailGrows(d, InDouble(glyphs + [Glyph(c, false)], false), c);
    }
  }

  lemma EscapeIsWritten(d: Document, glyphs: seq<Glyph>, c: char)
    requires d.tail == InDouble(glyphs, true)
    ensures Written(Extended(d, c)) == Written(d) + [c]
  {
    GlyphsSnoc(glyphs, Glyph(c, true));
    assert ['\\'] + [c] == ['\\', c];
    Associate(GlyphsText(glyphs), ['\\'], [c]);
    Associate(['"'], GlyphsText(glyphs) + ['\\'], [c]);
    Associate(['"'], GlyphsText(glyphs), ['\\']);
    TailGrows(d, InDouble(glyphs + [Glyph(c, true)], false), c);
  }

  lemma ExtendedIsWritten(d: Document, c: char)
    ensures Written(Extended(d, c)) == Written(d) + [c]
  {
    match d.tail {
      case Complete => BeganIsWritten(d, c);
      case Backslash =>
        assert ['\\'] + [c] == ['\\', c];
        TailEnds(d, Open(Glyph(c, true)), c);
      case InSingle(text) => SingleIsWritten(d, text, c);
      case InDouble(glyphs, backslash) =>
        if backslash {
          EscapeIsWritten(d, glyphs, c);
        } else {
          DoubleIsWritten(d, glyphs, c);
        }
    }
  }

  lemma ExtendedIsLegal(d: Document, c: char)
    requires LegalDocument(d)
    ensures LegalDocument(Extended(d, c))
  {
  }

  predicate Reads(d: Document, command: string) {
    LegalDocument(d) && Written(d) == command
  }

  ghost predicate Writable(command: string) {
    exists d :: Reads(d, command)
  }

  lemma ReadsOneMore(d: Document, command: string, c: char)
    requires Reads(d, command)
    ensures Writable(command + [c])
  {
    ExtendedIsLegal(d, c);
    ExtendedIsWritten(d, c);
    assert Reads(Extended(d, c), command + [c]);
  }

  lemma WritableOneMore(command: string, c: char)
    requires Writable(command)
    ensures Writable(command + [c])
  {
    var d :| Reads(d, command);
    ReadsOneMore(d, command, c);
  }

  lemma Snoc(text: string)
    requires text != ""
    ensures text[..|text| - 1] + [text[|text| - 1]] == text
  {
  }

  lemma EmptyIsWritable()
    ensures Writable("")
  {
    assert Reads(Document([], [], Complete), "");
  }

  /** Every command at all is written in one of these ways. */
  lemma {:induction false} EveryCommandIsWritten(command: string)
    ensures Writable(command)
  {
    if command == "" {
      EmptyIsWritable();
    } else {
      EveryCommandIsWritten(command[..|command| - 1]);
      WritableOneMore(command[..|command| - 1], command[|command| - 1]);
      Snoc(command);
    }
  }
}
