/**
 * What the text of SCP records means, said without the parsers: characters
 * and their UTF-8 form, numbers, names, and the shape of each record that a
 * sink accepts. Each lemma equates a function of `ScpText`, `ScpSink` or
 * `ScpSource` with a description that does not mention it: texts are sequences
 * of scalar values, numbers are sums of digits by place.
 */
module ScpRecords {
  import opened Common
  import opened ScpText
  import opened ScpSink
  import opened ScpSource

  // ----- Characters (section 3 of RFC 3629) -----

  predicate Scalar(c: nat) {
    c < 0xD800 || 0xE000 <= c < 0x110000
  }

  function Encode(c: nat): (s: bytes)
    requires Scalar(c)
    ensures 1 <= |s| <= 4
  {
    if c < 0x80 then [c]
    else if c < 0x800 then [0xC0 + c / 64, 0x80 + c % 64]
    else if c < 0x10000 then [0xE0 + c / 4096, 0x80 + c / 64 % 64, 0x80 + c % 64]
    else [0xF0 + c / 262144, 0x80 + c / 4096 % 64, 0x80 + c / 64 % 64, 0x80 + c % 64]
  }

  predicate Scalars(text: seq<nat>) {
    forall i :: 0 <= i < |text| ==> Scalar(text[i])
  }

  function EncodeAll(text: seq<nat>): bytes
    requires Scalars(text)
  {
    if text == [] then [] else Encode(text[0]) + EncodeAll(text[1..])
  }

  lemma OneCharacter(c: nat, rest: bytes)
    requires Scalar(c)
    ensures Utf8(Encode(c) + rest) <==> Utf8(rest)
  {
    if c < 0x80 {
      assert (Encode(c) + rest)[1..] == rest;
    } else if c < 0x800 {
      TwoByteCharacter(Encode(c)[0], Encode(c)[1], rest);
    } else if c < 0x10000 {
      ThreeByteRange(c);
      ThreeByteCharacter(Encode(c)[0], Encode(c)[1], Encode(c)[2], rest);
    } else {
      FourByteRange(c);
      FourByteCharacter(Encode(c)[0], Encode(c)[1], Encode(c)[2], Encode(c)[3], rest);
    }
  }

  lemma TwoByteCharacter(a: byte, b: byte, rest: bytes)
    requires InRange(a, 0xC2, 0xDF) && Continuation(b)
    ensures Utf8([a, b] + rest) <==> Utf8(rest)
  {
    assert ([a, b] + rest)[2..] == rest;
  }

  lemma ThreeByteCharacter(a: byte, b: byte, d: byte, rest: bytes)
    requires InRange(a, 0xE0, 0xEF) && Continuation(d)
    requires InRange(b, if a == 0xE0 then 0xA0 else 0x80, if a == 0xED then 0x9F else 0xBF)
    ensures Utf8([a, b, d] + rest) <==> Utf8(rest)
  {
    assert ([a, b, d] + rest)[3..] == rest;
  }

  lemma FourByteCharacter(a: byte, b: byte, d: byte, e: byte, rest: bytes)
    requires InRange(a, 0xF0, 0xF4) && Continuation(d) && Continuation(e)
    requires InRange(b, if a == 0xF0 then 0x90 else 0x80, if a == 0xF4 then 0x8F else 0xBF)
    ensures Utf8([a, b, d, e] + rest) <==> Utf8(rest)
  {
    assert ([a, b, d, e] + rest)[4..] == rest;
  }

  lemma ThreeByteRange(c: nat)
    requires Scalar(c) && 0x800 <= c < 0x10000
    ensures
      var e := Encode(c);
      && |e| == 3 && InRange(e[0], 0xE0, 0xEF) && Continuation(e[2])
      && InRange(e[1], if e[0] == 0xE0 then 0xA0 else 0x80, if e[0] == 0xED then 0x9F else 0xBF)
  {
  }

  lemma FourByteRange(c: nat)
    requires Scalar(c) && 0x10000 <= c
    ensures
      var e := Encode(c);
      && |e| == 4 && InRange(e[0], 0xF0, 0xF4) && Continuation(e[2]) && Continuation(e[3])
      && InRange(e[1], if e[0] == 0xF0 then 0x90 else 0x80, if e[0] == 0xF4 then 0x8F else 0xBF)
  {
  }

  lemma {:induction false} EncodedIsUtf8(text: seq<nat>)
    requires Scalars(text)
    ensures Utf8(EncodeAll(text))
    decreases |text|
  {
    if text != [] {
      OneCharacter(text[0], EncodeAll(text[1..]));
      EncodedIsUtf8(text[1..]);
    }
  }

  /** The first character of UTF-8 text. */
  lemma FirstCharacter(s: bytes) returns (c: nat)
    requires s != [] && Utf8(s)
    ensures Scalar(c) && |Encode(c)| <= |s| && s[..|Encode(c)|] == Encode(c) && Utf8(s[|Encode(c)|..])
  {
    if s[0] < 0x80 {
      c := s[0];
    } else if InRange(s[0], 0xC2, 0xDF) {
      c := TwoBytes(s[0], s[1]);
    } else if InRange(s[0], 0xE0, 0xEF) {
      c := ThreeBytes(s[0], s[1], s[2]);
    } else {
      c := FourBytes(s[0], s[1], s[2], s[3]);
    }
  }

  lemma TwoBytes(a: byte, b: byte) returns (c: nat)
    requires InRange(a, 0xC2, 0xDF) && Continuation(b)
    ensures Scalar(c) && Encode(c) == [a, b]
  {
    c := (a as int - 0xC0) * 64 + (b as int - 0x80);
    assert c / 64 == a - 0xC0 && c % 64 == b - 0x80;
  }

  lemma ThreeBytes(a: byte, b: byte, d: byte) returns (c: nat)
    requires InRange(a, 0xE0, 0xEF) && Continuation(d)
    requires InRange(b, if a == 0xE0 then 0xA0 else 0x80, if a == 0xED then 0x9F else 0xBF)
    ensures Scalar(c) && Encode(c) == [a, b, d]
  {
    c := (a as int - 0xE0) * 4096 + (b as int - 0x80) * 64 + (d as int - 0x80);
    assert c / 4096 == a - 0xE0 && c / 64 == (a - 0xE0) * 64 + (b - 0x80) && c % 64 == d - 0x80;
    assert c / 64 % 64 == b - 0x80;
  }

  lemma FourBytes(a: byte, b: byte, d: byte, e: byte) returns (c: nat)
    requires InRange(a, 0xF0, 0xF4) && Continuation(d) && Continuation(e)
    requires InRange(b, if a == 0xF0 then 0x90 else 0x80, if a == 0xF4 then 0x8F else 0xBF)
    ensures Scalar(c) && Encode(c) == [a, b, d, e]
  {
    c := (a as int - 0xF0) * 262144 + (b as int - 0x80) * 4096 + (d as int - 0x80) * 64 + (e as int - 0x80);
    assert c / 262144 == a - 0xF0 && c % 64 == e - 0x80;
    assert c / 4096 == (a - 0xF0) * 64 + (b - 0x80) && c / 4096 % 64 == b - 0x80;
    assert c / 64 == ((a - 0xF0) * 64 + (b - 0x80)) * 64 + (d - 0x80) && c / 64 % 64 == d - 0x80;
  }

  lemma {:induction false} Utf8IsEncoded(s: bytes) returns (text: seq<nat>)
    requires Utf8(s)
    ensures Scalars(text) && EncodeAll(text) == s
    decreases |s|
  {
    text := [];
    if s != [] {
      var c := FirstCharacter(s);
      var rest := Utf8IsEncoded(s[|Encode(c)|..]);
      text := [c] + rest;
      assert text[1..] == rest;
      assert s == s[..|Encode(c)|] + s[|Encode(c)|..];
    }
  }

  /** A byte string is UTF-8 exactly when it is the encoding of a text. */
  lemma Utf8Means(s: bytes)
    ensures Utf8(s) <==> exists text :: Scalars(text) && EncodeAll(text) == s
  {
    if Utf8(s) {
      var text := Utf8IsEncoded(s);
    }
    if text :| Scalars(text) && EncodeAll(text) == s {
      EncodedIsUtf8(text);
    }
  }

  predicate ControlCharacter(c: nat) {
    c < 0x20 || 0x7F <= c < 0xA0
  }

  lemma OneControl(c: nat, rest: bytes)
    requires Scalar(c)
    ensures HasControl(Encode(c) + rest) <==> ControlCharacter(c) || HasControl(rest)
  {
    var e, s := Encode(c), Encode(c) + rest;
    assert forall i :: 0 <= i < |e| ==> s[i] == e[i];
    assert forall i :: 0 <= i < |rest| ==> s[|e| + i] == rest[i];
    FirstControl(c, rest);
    if i :| 0 <= i < |rest| && ControlAt(rest, i) {
      assert ControlAt(s, |e| + i);
    }
    if i :| 0 <= i < |s| && ControlAt(s, i) {
      if i >= |e| {
        assert ControlAt(rest, i - |e|);
      } else {
        assert i == 0;
      }
    }
  }

  lemma FirstControl(c: nat, rest: bytes)
    requires Scalar(c)
    ensures
      var s := Encode(c) + rest;
      && (ControlAt(s, 0) <==> ControlCharacter(c))
      && forall i :: 0 < i < |Encode(c)| ==> !ControlAt(s, i)
  {
    var e, s := Encode(c), Encode(c) + rest;
    assert forall i :: 0 <= i < |e| ==> s[i] == e[i];
    assert forall i :: 0 < i < |e| ==> 0x80 <= e[i] < 0xC0;
    if 0x80 <= c < 0x800 {
      assert e[0] == 0xC0 + c / 64 && e[1] == 0x80 + c % 64;
      assert e[0] == 0xC2 <==> 0x80 <= c < 0xC0;
    }
  }

  lemma {:induction false} ControlMeans(text: seq<nat>)
    requires Scalars(text)
    ensures HasControl(EncodeAll(text)) <==> exists i :: 0 <= i < |text| && ControlCharacter(text[i])
    decreases |text|
  {
    if text != [] {
      OneControl(text[0], EncodeAll(text[1..]));
      ControlMeans(text[1..]);
      if i :| 0 <= i < |text[1..]| && ControlCharacter(text[1..][i]) {
        assert ControlCharacter(text[i + 1]);
      }
      if i :| 0 <= i < |text| && ControlCharacter(text[i]) {
        if i > 0 {
          assert ControlCharacter(text[1..][i - 1]);
        }
      }
    }
  }

  lemma OneAscii(c: nat, rest: bytes, b: byte)
    requires Scalar(c) && b < 0x80
    ensures b in Encode(c) + rest <==> c == b || b in rest
  {
    assert c >= 0x80 ==> forall i :: 0 <= i < |Encode(c)| ==> Encode(c)[i] >= 0x80;
    assert c < 0x80 ==> Encode(c) == [c];
  }

  /** An ASCII character occurs in the text exactly when its byte occurs in the encoding. */
  lemma {:induction false} AsciiMeans(text: seq<nat>, b: byte)
    requires Scalars(text) && b < 0x80
    ensures b in EncodeAll(text) <==> b in text
    decreases |text|
  {
    if text != [] {
      OneAscii(text[0], EncodeAll(text[1..]), b);
      AsciiMeans(text[1..], b);
      assert text == [text[0]] + text[1..];
    }
  }

  /** A text and an ASCII text are encoded alike only when they are the same. */
  lemma {:induction false} DotsMean(text: seq<nat>)
    requires Scalars(text)
    ensures EncodeAll(text) == [] <==> text == []
    ensures EncodeAll(text) == [0x2E] <==> text == [0x2E]
    ensures EncodeAll(text) == [0x2E, 0x2E] <==> text == [0x2E, 0x2E]
  {
    if text != [] {
      FirstByte(text[0], EncodeAll(text[1..]));
      if text[1..] != [] {
        FirstByte(text[1], EncodeAll(text[1..][1..]));
        assert text[1..][0] == text[1];
        if text[1..][1..] != [] {
          assert |EncodeAll(text[1..][1..])| > 0;
        }
      } else {
        assert text == [text[0]];
      }
    }
  }

  lemma FirstByte(c: nat, rest: bytes)
    requires Scalar(c)
    ensures (Encode(c) + rest)[0] == 0x2E ==> c == 0x2E && (Encode(c) + rest)[1..] == rest
    ensures c == 0x2E ==> Encode(c) + rest == [0x2E] + rest
  {
  }

  /** A name is one path component: not empty, not a dot or two, without slash, backslash or control character. */
  lemma ValidNameMeans(text: seq<nat>)
    requires Scalars(text)
    ensures ValidName(EncodeAll(text)) <==>
      && text != [] && text != [0x2E] && text != [0x2E, 0x2E]
      && 0x2F !in text && 0x5C !in text
      && forall i :: 0 <= i < |text| ==> !ControlCharacter(text[i])
  {
    DotsMean(text);
    AsciiMeans(text, SLASH);
    AsciiMeans(text, BACKSLASH);
    ControlMeans(text);
  }

  // ----- Numbers -----

  function Power(base: nat, n: nat): nat {
    if n == 0 then 1 else base * Power(base, n - 1)
  }

  predicate DigitsOnly(s: bytes, base: nat) {
    forall i :: 0 <= i < |s| ==> 48 <= s[i] < 48 + base
  }

  /** Digits by their place, from the left. */
  function ByPlace(s: bytes, base: nat): int
    requires DigitsOnly(s, base)
  {
    if s == [] then 0 else (s[0] - 48) * Power(base, |s| - 1) + ByPlace(s[1..], base)
  }

  lemma {:induction false} ByPlaceSnoc(s: bytes, d: byte, base: nat)
    requires (base == 8 || base == 10) && DigitsOnly(s, base) && 48 <= d < 48 + base
    ensures DigitsOnly(s + [d], base) && ByPlace(s + [d], base) == ByPlace(s, base) * base + (d - 48)
    decreases |s|
  {
    var all := s + [d];
    if s == [] {
      assert all == [d] && [d][1..] == [] && Power(base, 0) == 1;
      assert ByPlace([d][1..], base) == 0;
    } else {
      assert all[0] == s[0] && all[1..] == s[1..] + [d];
      ByPlaceSnoc(s[1..], d, base);
      assert Power(base, |all| - 1) == base * Power(base, |s| - 1);
      Distribute(s[0] - 48, Power(base, |s| - 1), ByPlace(s[1..], base), base);
    }
  }

  lemma Distribute(a: int, p: int, r: int, base: nat)
    requires base == 8 || base == 10
    ensures a * (base * p) + r * base == (a * p + r) * base
  {
    if base == 8 {
      assert a * (8 * p) == 8 * (a * p);
    } else {
      assert a * (10 * p) == 10 * (a * p);
    }
  }

  lemma {:induction false} ValueMeans(s: bytes, base: nat)
    requires base == 8 || base == 10
    ensures Value(s, base).Some? <==> DigitsOnly(s, base)
    ensures DigitsOnly(s, base) ==> Value(s, base) == Some(ByPlace(s, base))
    decreases |s|
  {
    if s != [] {
      var n := |s| - 1;
      ValueMeans(s[..n], base);
      assert s == s[..n] + [s[n]];
      if DigitsOnly(s[..n], base) && 48 <= s[n] < 48 + base {
        ByPlaceSnoc(s[..n], s[n], base);
      }
      if DigitsOnly(s, base) {
        assert forall i :: 0 <= i < n ==> s[..n][i] == s[i];
      }
    }
  }

  /** A number is a non-empty string of digits, one plus sign before it allowed, that does not overflow. */
  lemma NumberMeans(s: bytes, base: nat, max: nat, v: nat)
    requires base == 8 || base == 10
    ensures ParseUnsigned(s, base, max) == Some(v) <==>
      v <= max && exists digits :: IsNumber(s, digits, base) && ByPlace(digits, base) == v
  {
    var digits := if |s| >= 2 && s[0] == PLUS then s[1..] else s;
    ValueMeans(digits, base);
    if DigitsOnly(digits, base) && digits != [] {
      assert s == digits || s == [43] + digits;
      assert IsNumber(s, digits, base);
    }
    if other :| IsNumber(s, other, base) && ByPlace(other, base) == v {
      if s == [43] + other {
        assert s[1..] == other;
      } else {
        assert s[0] != 43;
      }
    }
  }

  predicate IsNumber(s: bytes, digits: bytes, base: nat) {
    digits != [] && DigitsOnly(digits, base) && (s == digits || s == [43] + digits)
  }

  /** How numbers are printed: permissions in four octal places, sizes without a leading zero. */
  lemma {:induction false} DigitsArePlain(n: nat, base: nat)
    requires base == 8 || base == 10
    ensures DigitsOnly(Digits(n, base), base) && (|Digits(n, base)| == 1 || Digits(n, base)[0] != 48)
    ensures n < 512 && base == 8 ==> |Digits(n, base)| <= 3
    ensures n > 0 ==> Digits(n, base)[0] != 48
    decreases n
  {
    if n >= base {
      DigitsArePlain(Quotient(n, base), base);
      if base == 8 && n < 512 {
        assert n / 8 < 64 && n / 64 < 8;
        if n / 8 >= 8 {
          assert Digits(n / 8, 8) == Digits(n / 64, 8) + [ZERO + n / 8 % 8];
          assert |Digits(n / 64, 8)| == 1;
        }
      }
    }
  }

  lemma PrintedPlainly(mode: nat, size: nat)
    requires mode < 512
    ensures |Octal4(mode)| == 4 && DigitsOnly(Octal4(mode), 8)
    ensures DigitsOnly(Decimal(size), 10) && (|Decimal(size)| == 1 || Decimal(size)[0] != 48)
  {
    DigitsArePlain(mode, 8);
    DigitsArePlain(size, 10);
  }

  // ----- Control records -----

  /** Kind, mode, size and name with one space after the mode and one after the size, and a newline. */
  predicate IsRecord(line: bytes, kind: byte, mode: bytes, size: bytes, name: bytes) {
    && line == [kind] + (mode + [SPACE] + (size + [SPACE] + name)) + [NEWLINE]
    && SPACE !in mode && SPACE !in size
  }

  /** A record is read exactly when it has this shape, is UTF-8, and its numbers do not overflow. */
  lemma ControlMeansRecord(line: bytes, kind: byte, control: Control)
    requires kind != NEWLINE
    ensures ParseControl(line, kind) == Some(control) <==>
      exists mode, size :: ReadsAs(line, kind, mode, size, control)
  {
    if ParseControl(line, kind) == Some(control) {
      var mode, size := FieldsOfRecord(line, kind, control);
    }
    if mode, size :| ReadsAs(line, kind, mode, size, control) {
      RecordIsRead(line, kind, mode, size, control);
    }
  }

  ghost predicate ReadsAs(line: bytes, kind: byte, mode: bytes, size: bytes, control: Control) {
    && IsRecord(line, kind, mode, size, control.name)
    && Utf8(line[1..|line| - 1])
    && (exists m :: ParseUnsigned(mode, 8, U32_MAX) == Some(m) && control.mode == m % 512)
    && ParseUnsigned(size, 10, U64_MAX) == Some(control.size)
  }

  lemma SplitOnceMeans(s: bytes, b: byte)
    ensures SplitOnce(s, b).Some? ==>
      var (head, tail) := SplitOnce(s, b).value; s == head + [b] + tail && b !in head
  {
    var i := IndexOf(s, b);
    if i < |s| {
      assert s == s[..i] + [s[i]] + s[i + 1..];
      assert forall k :: 0 <= k < i ==> s[..i][k] == s[k];
    }
  }

  lemma FieldsOfRecord(line: bytes, kind: byte, control: Control) returns (mode: bytes, size: bytes)
    requires kind != NEWLINE && ParseControl(line, kind) == Some(control)
    ensures ReadsAs(line, kind, mode, size, control)
  {
    assert |line| >= 2;
    var text := line[1..|line| - 1];
    assert line == [kind] + text + [NEWLINE];
    SplitOnceMeans(text, SPACE);
    var (m, tail) := SplitOnce(text, SPACE).value;
    SplitOnceMeans(tail, SPACE);
    var (n, name) := SplitOnce(tail, SPACE).value;
    mode, size := m, n;
    assert ParseUnsigned(mode, 8, U32_MAX).Some?;
  }

  lemma RecordIsRead(line: bytes, kind: byte, mode: bytes, size: bytes, control: Control)
    requires kind != NEWLINE && ReadsAs(line, kind, mode, size, control)
    ensures ParseControl(line, kind) == Some(control)
  {
    var tail := size + [SPACE] + control.name;
    var text := mode + [SPACE] + tail;
    assert line == Record(kind, text);
    SplitOnceJoined(mode, SPACE, tail);
    SplitOnceJoined(size, SPACE, control.name);
    assert ParseFields(text) == Some(control);
    ParseRecord(kind, text, control);
  }

  // ----- Time records -----

  function JoinSpaces(words: seq<bytes>): bytes {
    if words == [] then [] else if |words| == 1 then words[0] else words[0] + ([SPACE] + JoinSpaces(words[1..]))
  }

  lemma {:induction false} FieldsOfJoin(words: seq<bytes>)
    requires forall i :: 0 <= i < |words| ==> Word(words[i])
    ensures Fields(JoinSpaces(words)) == words
    decreases |words|
  {
    if |words| == 1 {
      FieldsOfWord(words[0], []);
      assert words[0] + [] == words[0];
    } else if |words| > 1 {
      FieldsOfJoin(words[1..]);
      FieldsOfCons(words[0], JoinSpaces(words[1..]));
    }
  }

  /** Any white space parts fields, and white space at either end does not matter. */
  lemma FieldsPart(word: bytes, gap: byte, rest: bytes)
    requires Word(word) && AsciiWhitespace(gap)
    ensures Fields(word + ([gap] + rest)) == [word] + Fields(rest)
    ensures Fields([gap] + rest) == Fields(rest)
  {
    FieldsOfWord(word, [gap] + rest);
    assert ([gap] + rest)[1..] == rest;
  }

  /** A time record is accepted exactly when it is UTF-8 and has four fields, each a 64-bit number. */
  lemma TimesMean(words: seq<bytes>)
    requires forall i :: 0 <= i < |words| ==> Word(words[i])
    ensures ParseTimes(Record(LETTER_T, JoinSpaces(words))) <==>
      && Utf8(Record(LETTER_T, JoinSpaces(words)))
      && |words| == 4
      && forall i :: 0 <= i < |words| ==> ParseUnsigned(words[i], 10, U64_MAX).Some?
  {
    FieldsOfJoin(words);
    RecordText(LETTER_T, JoinSpaces(words));
  }

  /** Whole seconds, zero when the file system cannot tell the modification and the modification for the access. */
  predicate TellsTimes(line: bytes, stamp: Stamp) {
    && |line| >= 2 && line[0] == 84 && line[|line| - 1] == 10
    && var fields := Fields(line[1..|line| - 1]);
       && |fields| == 4
       && var modified := match stamp.modified case Some(n) => n case None => 0;
          && ParseUnsigned(fields[0], 10, U64_MAX) == Some(modified)
          && ParseUnsigned(fields[1], 10, U64_MAX) == Some(0)
          && ParseUnsigned(fields[2], 10, U64_MAX)
             == Some(match stamp.accessed case Some(n) => n case None => modified)
          && ParseUnsigned(fields[3], 10, U64_MAX) == Some(0)
  }

  /** When times are to be kept, each entry is announced by its own times and nothing else is. */
  lemma TimesAreTold(t: Tree, name: bytes, request: Request, depth: nat)
    requires !t.Link? && depth < MAX_RECURSION_DEPTH && StampFits(t.stamp)
    ensures
      var script := EntryScript(t, name, request, depth);
      if request.preserveTimes then
        |script| >= 2 && script[0].Send? && script[1] == Expect && TellsTimes(script[0].data, t.stamp)
      else script != [] && (script[0].Send? ==> script[0].data != [] && script[0].data[0] != LETTER_T)
  {
    var script := EntryScript(t, name, request, depth);
    var times := TimesScript(t.stamp, request.preserveTimes);
    TimesLineTells(t.stamp);
    assert script == times + script[|times|..];
    if !request.preserveTimes && t.File? {
      assert |t.data| <= MAX_FILE_SIZE ==> script[0] == FileScript(t.mode, t.data, name)[0];
    }
  }

  lemma TimesLineTells(stamp: Stamp)
    requires StampFits(stamp)
    ensures TellsTimes(TimesLine(Modified(stamp), Accessed(stamp)), stamp)
  {
    DecimalRoundTrip(Modified(stamp), U64_MAX);
    DecimalRoundTrip(Accessed(stamp), U64_MAX);
    DecimalRoundTrip(0, U64_MAX);
    TextTells(Decimal(Modified(stamp)), Decimal(0), Decimal(Accessed(stamp)), stamp);
  }

  lemma TextTells(m: bytes, z: bytes, a: bytes, stamp: Stamp)
    requires Word(m) && Word(z) && Word(a)
    requires ParseUnsigned(m, 10, U64_MAX) == Some(Modified(stamp))
    requires ParseUnsigned(z, 10, U64_MAX) == Some(0)
    requires ParseUnsigned(a, 10, U64_MAX) == Some(Accessed(stamp))
    ensures TellsTimes(Record(LETTER_T, TimesText(m, z, a)), stamp)
  {
    FieldsOfTimes(m, z, a);
    RecordText(LETTER_T, TimesText(m, z, a));
    FieldsTell(Record(LETTER_T, TimesText(m, z, a)), [m, z, a, z], stamp);
  }

  lemma FieldsTell(line: bytes, fields: seq<bytes>, stamp: Stamp)
    requires |line| >= 2 && line[0] == LETTER_T && line[|line| - 1] == NEWLINE
    requires Fields(line[1..|line| - 1]) == fields && |fields| == 4
    requires ParseUnsigned(fields[0], 10, U64_MAX) == Some(Modified(stamp))
    requires ParseUnsigned(fields[1], 10, U64_MAX) == Some(0)
    requires ParseUnsigned(fields[2], 10, U64_MAX) == Some(Accessed(stamp))
    requires ParseUnsigned(fields[3], 10, U64_MAX) == Some(0)
    ensures TellsTimes(line, stamp)
  {
  }

  // ----- Names from Windows -----

  /** The leaf is what follows the last slash or backslash, and everything when there is none. */
  lemma {:induction false} LeafMeans(path: bytes)
    ensures |Leaf(path)| <= |path| && path[|path| - |Leaf(path)|..] == Leaf(path)
    ensures |Leaf(path)| < |path| ==> path[|path| - |Leaf(path)| - 1] in {0x2F, 0x5C}
    decreases |path|
  {
    if path != [] && !Separator(path[|path| - 1]) {
      var n := |path| - 1;
      LeafMeans(path[..n]);
      var leaf := Leaf(path[..n]);
      assert path[..n][n - |leaf|..] == leaf;
      assert path[n - |leaf|..] == path[..n][n - |leaf|..] + [path[n]];
    }
  }

  /** A letter, a colon and a separator. */
  predicate DrivePath(name: bytes) {
    && |name| >= 4 && (65 <= name[0] <= 90 || 97 <= name[0] <= 122)
    && name[1] == 0x3A && name[2] in {0x2F, 0x5C}
  }

  /** A valid name is taken as it is; of an absolute Windows path its last component, if that is valid. */
  lemma PortableNameMeans(name: bytes, leaf: bytes)
    ensures PortableName(name) == Some(leaf) <==>
      if ValidName(name) then leaf == name
      else DrivePath(name) && ValidName(leaf) && LastComponent(name, leaf)
  {
    LeafMeans(name);
    if LastComponent(name, leaf) {
      LeafIsLast(name, leaf);
    }
  }

  predicate LastComponent(path: bytes, leaf: bytes) {
    && |leaf| < |path| && path[|path| - |leaf|..] == leaf
    && path[|path| - |leaf| - 1] in {0x2F, 0x5C}
    && 0x2F !in leaf && 0x5C !in leaf
  }

  lemma LeafIsLast(path: bytes, leaf: bytes)
    requires LastComponent(path, leaf)
    ensures Leaf(path) == leaf
  {
    LeafMeans(path);
    assert 0x2F !in Leaf(path) && 0x5C !in Leaf(path);
    NoSeparatorWithin(path, leaf);
    NoSeparatorWithin(path, Leaf(path));
  }

  lemma NoSeparatorWithin(path: bytes, leaf: bytes)
    requires |leaf| <= |path| && path[|path| - |leaf|..] == leaf && 0x2F !in leaf && 0x5C !in leaf
    ensures forall k :: |path| - |leaf| <= k < |path| ==> path[k] !in {0x2F, 0x5C}
  {
    forall k | |path| - |leaf| <= k < |path|
      ensures path[k] !in {0x2F, 0x5C}
    {
      assert path[k] == leaf[k - (|path| - |leaf|)];
    }
  }

  // ----- What a sink takes -----

  /** Where a sink starts: below an existing directory, at a file's name, or in a directory made for it. */
  lemma StartMeans(fs: FileSystem, request: Request, newDirMode: nat)
    ensures
      var path := Normals(request.target);
      var valid := request.target != [] && ParentDir !in request.target && RootDir !in request.target;
      var exists' := path in fs && fs[path].DirEntry?;
      var parent := path != [] && IsDir(fs, path[..|path| - 1]);
      match Start(fs, request, newDirMode)
      case None => !valid || (!exists' && (!parent || (request.targetIsDirectory && path in fs)))
      case Some(s) =>
        && valid && s.phase == ReadingLine([]) && s.acks == 1 && s.recursive == request.recursive
        && if exists' then s.fs == fs && s.dirs == [path] && s.forced == None
           else
             && parent
             && if request.targetIsDirectory then
                  path !in fs && s.fs == fs[path := DirEntry(newDirMode)] && s.dirs == [path] && s.forced == None
                else s.fs == fs && s.dirs == [path[..|path| - 1]] && s.forced == Some(path)
  {
  }

  /** The path of a target is its normal components, in order. */
  lemma {:induction false} NormalsMean(target: seq<Component>)
    requires ParentDir !in target && RootDir !in target
    ensures |Normals(target)| <= |target|
    ensures (forall i :: 0 <= i < |target| ==> target[i].Normal?) ==>
      |Normals(target)| == |target| && forall i :: 0 <= i < |target| ==> Normals(target)[i] == target[i].name
    ensures target != [] && target[0] == CurDir ==> Normals(target) == Normals(target[1..])
    decreases |target|
  {
    if target != [] {
      assert ParentDir !in target[1..] && RootDir !in target[1..];
      NormalsMean(target[1..]);
      if forall i :: 0 <= i < |target| ==> target[i].Normal? {
        assert forall i :: 0 <= i < |target[1..]| ==> target[1..][i] == target[i + 1];
      }
    }
  }

  /** What an accepted record says and does; nothing else is accepted. */
  lemma OnlyRecordsAreAccepted(s: Sink, line: bytes)
    requires s.dirs != [] && line != [] && line[|line| - 1] == NEWLINE && s.phase == ReadingLine([])
    requires !ProcessLine(s, line).phase.Rejected?
    ensures
      var t := ProcessLine(s, line);
      && t.acks == s.acks + 1 && t.recursive == s.recursive
      && match line[0]
         case 84 => ParseTimes(line) && t.fs == s.fs && t.dirs == s.dirs && t.forced == s.forced && t.phase == s.phase
         case 69 =>
           && line == [69, 10] && |s.dirs| > 1 && t.dirs == s.dirs[..|s.dirs| - 1]
           && t.fs == s.fs && t.forced == s.forced && t.phase == s.phase
         case 68 => TakesDirectory(s, t, line)
         case _ => line[0] == 67 && TakesFile(s, t, line)
  {
  }

  predicate TakesDirectory(s: Sink, t: Sink, line: bytes)
    requires s.dirs != []
  {
    && s.recursive && s.forced == None && |s.dirs| < 32
    && match ParseControl(line, LETTER_D)
       case None => false
       case Some(control) =>
         && control.size == 0
         && match PortableName(control.name)
            case None => false
            case Some(name) =>
              var path := s.dirs[|s.dirs| - 1] + [name];
              && path !in s.fs && t.fs == s.fs[path := DirEntry(control.mode)]
              && t.dirs == s.dirs + [path] && t.forced == None && t.phase == s.phase
  }

  predicate TakesFile(s: Sink, t: Sink, line: bytes)
    requires s.dirs != []
  {
    match ParseControl(line, LETTER_C)
    case None => false
    case Some(control) =>
      && control.size <= 16 * 1024 * 1024
      && match PortableName(control.name)
         case None => false
         case Some(name) =>
           var path := match s.forced case Some(p) => p case None => s.dirs[|s.dirs| - 1] + [name];
           && t.fs == s.fs && t.dirs == s.dirs && t.forced == None
           && t.phase == if control.size == 0 then ReadingZero(path, control.mode, [])
                         else ReadingData(path, control.mode, control.size, [])
  }

  lemma {:induction false} DataIsRead(s: Sink, data: bytes)
    requires s.dirs != [] && s.phase.ReadingData? && |s.phase.data| < s.phase.size
    requires |s.phase.data| + |data| == s.phase.size
    ensures Feed(s, data) == s.(phase := ReadingZero(s.phase.path, s.phase.mode, s.phase.data + data))
    decreases |data|
  {
    var t := Step(s, data[0]);
    assert s.phase.data + data == (s.phase.data + [data[0]]) + data[1..];
    assert Feed(s, data) == Feed(t, data[1..]);
    if |data| == 1 {
      assert data == [data[0]] && data[1..] == [];
      assert Feed(t, []) == t;
    } else {
      DataIsRead(t, data[1..]);
    }
  }

  /** A file is stored when a zero byte follows its data, in place of a file or below a directory, and acknowledged. */
  lemma FileIsStored(s: Sink, b: byte)
    requires s.dirs != [] && s.phase.ReadingZero?
    ensures
      var t, path := Step(s, b), s.phase.path;
      var free := path != [] && !IsDir(s.fs, path) && IsDir(s.fs, path[..|path| - 1]);
      if b == 0 && free then
        t == s.(fs := s.fs[path := FileEntry(s.phase.mode, s.phase.data)], phase := ReadingLine([]), acks := s.acks + 1)
      else t == s.(phase := Rejected)
  {
  }

  /** A sink is done only between two records, in its target, and with its forced file stored. */
  lemma CompletedMeans(s: Sink, input: bytes)
    requires s.dirs != [] && s.phase == ReadingLine([]) && Completed(Feed(s, input))
    ensures
      var t := Feed(s, input);
      && |t.dirs| == 1 && t.forced == None
      && (input != [] ==> input[|input| - 1] in {0, 10})
  {
    if input != [] {
      var n := |input| - 1;
      assert input == input[..n] + [input[n]];
      FeedSnoc(s, input[..n], input[n]);
    }
  }
}
