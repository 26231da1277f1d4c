/**
 * The text of SCP control records: octal and decimal fields, UTF-8 names,
 * the record printer of the source and the record parsers of the sink.
 */
module ScpText {
  import opened Common

  const NEWLINE: byte := 10
  const SPACE: byte := 32
  const PLUS: byte := 43
  const DOT: byte := 46
  const SLASH: byte := 47
  const ZERO: byte := 48
  const COLON: byte := 58
  const BACKSLASH: byte := 92
  const LETTER_C: byte := 67
  const LETTER_D: byte := 68
  const LETTER_E: byte := 69
  const LETTER_T: byte := 84

  const U32_MAX: nat := 0xFFFF_FFFF
  const U64_MAX: nat := 0xFFFF_FFFF_FFFF_FFFF
  const MAX_CONTROL_LINE: nat := 8192
  const MAX_FILE_SIZE: nat := 16777216
  const MAX_RECURSION_DEPTH: nat := 32
  const PERMISSION_BITS: nat := 512

  // ----- UTF-8 (section 4 of RFC 3629) -----

  predicate InRange(b: byte, lo: int, hi: int) {
    lo <= b <= hi
  }

  predicate Continuation(b: byte) {
    InRange(b, 0x80, 0xBF)
  }

  /** The bytes decode as UTF-8 text. */
  predicate Utf8(s: bytes)
    decreases |s|
  {
    if |s| == 0 then true
    else if s[0] < 0x80 then Utf8(s[1..])
    else if InRange(s[0], 0xC2, 0xDF) then |s| >= 2 && Continuation(s[1]) && Utf8(s[2..])
    else if InRange(s[0], 0xE0, 0xEF) then
      && |s| >= 3
      && InRange(s[1], if s[0] == 0xE0 then 0xA0 else 0x80, if s[0] == 0xED then 0x9F else 0xBF)
      && Continuation(s[2]) && Utf8(s[3..])
    else
      && InRange(s[0], 0xF0, 0xF4) && |s| >= 4
      && InRange(s[1], if s[0] == 0xF0 then 0x90 else 0x80, if s[0] == 0xF4 then 0x8F else 0xBF)
      && Continuation(s[2]) && Continuation(s[3]) && Utf8(s[4..])
  }

  predicate Ascii(s: bytes) {
    forall i :: 0 <= i < |s| ==> s[i] < 0x80
  }

  lemma {:induction false} Utf8AfterAscii(prefix: bytes, s: bytes)
    requires Ascii(prefix)
    ensures Utf8(prefix + s) == Utf8(s)
  {
    if prefix == [] {
      assert prefix + s == s;
    } else {
      assert (prefix + s)[0] == prefix[0];
      assert (prefix + s)[1..] == prefix[1..] + s;
      Utf8AfterAscii(prefix[1..], s);
    }
  }

  /** A control character (general category Cc) occurs in the UTF-8 text. */
  predicate HasControl(s: bytes) {
    exists i :: 0 <= i < |s| && ControlAt(s, i)
  }

  predicate ControlAt(s: bytes, i: nat)
    requires i < |s|
  {
    || s[i] < 0x20
    || s[i] == 0x7F
    || (s[i] == 0xC2 && i + 1 < |s| && InRange(s[i + 1], 0x80, 0x9F))
  }

  // ----- Numbers -----

  /** Positional notation without leading zeros. */
  function Digits(n: nat, base: nat): (s: bytes)
    requires base == 8 || base == 10
    ensures |s| >= 1
    ensures forall i :: 0 <= i < |s| ==> 48 <= s[i] <= 57
  {
    if n < base then [ZERO + n] else Digits(Quotient(n, base), base) + [ZERO + LastDigit(n, base)]
  }

  function Quotient(n: nat, base: nat): (q: nat)
    requires base == 8 || base == 10
    ensures n >= base ==> q < n
  {
    if base == 8 then n / 8 else n / 10
  }

  function LastDigit(n: nat, base: nat): (d: nat)
    requires base == 8 || base == 10
    ensures d < base
  {
    if base == 8 then n % 8 else n % 10
  }

  function Decimal(n: nat): bytes {
    Digits(n, 10)
  }

  /** The `{:04o}` format: octal, padded on the left with zeros to four places. */
  function Octal4(mode: nat): bytes {
    var digits := Digits(mode, 8);
    seq(Max(0, 4 - |digits|), _ => ZERO) + digits
  }

  /** The value of a string of digits below `base`, most significant first. */
  function Value(s: bytes, base: nat): Option<nat>
    requires base == 8 || base == 10
  {
    if s == [] then Some(0)
    else
      var last := s[|s| - 1];
      match Value(s[..|s| - 1], base)
      case None => None
      case Some(v) => if ZERO <= last < ZERO + base then Some(Extended(v, base, last - ZERO)) else None
  }

  function Extended(v: nat, base: nat, digit: nat): nat {
    v * base + digit
  }

  /** Unsigned integer parsing: one optional `+`, at least one digit, no overflow. */
  function ParseUnsigned(s: bytes, base: nat, max: nat): Option<nat>
    requires base == 8 || base == 10
  {
    var digits := if |s| >= 2 && s[0] == PLUS then s[1..] else s;
    if digits == [] then None
    else
      match Value(digits, base)
      case None => None
      case Some(v) => if v <= max then Some(v) else None
  }

  lemma {:induction false} ValueOfDigits(n: nat, base: nat)
    requires base == 8 || base == 10
    ensures Value(Digits(n, base), base) == Some(n)
  {
    if n < base {
      OneDigit(n, base);
    } else {
      ValueOfDigits(Quotient(n, base), base);
      OneDigitMore(n, base);
    }
  }

  lemma OneDigit(n: nat, base: nat)
    requires base == 8 || base == 10
    requires n < base
    ensures Value([ZERO + n], base) == Some(n)
  {
    var none: bytes := [];
    assert [ZERO + n][..0] == none;
    assert Extended(0, base, n) == n;
  }

  lemma OneDigitMore(n: nat, base: nat)
    requires base == 8 || base == 10
    requires n >= base && Value(Digits(Quotient(n, base), base), base) == Some(Quotient(n, base))
    ensures Value(Digits(n, base), base) == Some(n)
  {
    ValueSnoc(Digits(Quotient(n, base), base), LastDigit(n, base), base, Quotient(n, base));
    QuotientAndRemainder(n, base);
  }

  lemma QuotientAndRemainder(n: nat, base: nat)
    requires base == 8 || base == 10
    ensures Extended(Quotient(n, base), base, LastDigit(n, base)) == n
  {
  }

  lemma ValueSnoc(s: bytes, digit: nat, base: nat, v: nat)
    requires base == 8 || base == 10
    requires digit < base && Value(s, base) == Some(v)
    ensures Value(s + [ZERO + digit], base) == Some(Extended(v, base, digit))
  {
    var all := s + [ZERO + digit];
    assert all[..|all| - 1] == s && all[|all| - 1] == ZERO + digit;
  }

  lemma {:induction false} ValueIgnoresLeadingZeros(k: nat, s: bytes, base: nat)
    requires base == 8 || base == 10
    requires |s| >= 1
    ensures Value(seq(k, _ => ZERO) + s, base) == Value(s, base)
    decreases k, |s|
  {
    var zeros: bytes := seq(k, _ => ZERO);
    var all := zeros + s;
    assert all[..|all| - 1] == zeros + s[..|s| - 1];
    if |s| > 1 {
      ValueIgnoresLeadingZeros(k, s[..|s| - 1], base);
    } else if k == 0 {
      assert all == s;
    } else {
      assert zeros + s[..0] == seq(k - 1, _ => ZERO) + [ZERO];
      ValueIgnoresLeadingZeros(k - 1, [ZERO], base);
      assert Value([ZERO][..0], base) == Some(0);
      assert s[..0] == [];
    }
  }

  /** Printing then parsing a decimal field returns the number. */
  lemma DecimalRoundTrip(n: nat, max: nat)
    requires n <= max
    ensures ParseUnsigned(Decimal(n), 10, max) == Some(n)
  {
    ValueOfDigits(n, 10);
  }

  /** Printing then parsing a permission field returns the number. */
  lemma OctalRoundTrip(mode: nat)
    requires mode <= U32_MAX
    ensures ParseUnsigned(Octal4(mode), 8, U32_MAX) == Some(mode)
  {
    var digits := Digits(mode, 8);
    ValueOfDigits(mode, 8);
    ValueIgnoresLeadingZeros(Max(0, 4 - |digits|), digits, 8);
    assert Octal4(mode)[0] != PLUS;
  }

  // ----- Control records -----

  datatype Control = Control(mode: nat, size: nat, name: bytes)

  /** A record: its kind, its text and a newline. */
  function Record(kind: byte, text: bytes): (line: bytes)
    ensures |line| == |text| + 2 && line[0] == kind && line[|line| - 1] == NEWLINE
    ensures line[1..|line| - 1] == text
  {
    [kind] + text + [NEWLINE]
  }

  /** `{kind}{mode:04o} {size} {name}` and a newline. */
  function ControlLine(kind: byte, mode: nat, size: nat, name: bytes): bytes {
    Record(kind, ControlFields(mode, size) + name)
  }

  function ControlFields(mode: nat, size: nat): bytes {
    Octal4(mode) + [SPACE] + Decimal(size) + [SPACE]
  }

  /** The text before the first `b` and the text after it. */
  function SplitOnce(s: bytes, b: byte): Option<(bytes, bytes)> {
    var i := IndexOf(s, b);
    if i == |s| then None else Some((s[..i], s[i + 1..]))
  }

  lemma SplitOnceJoined(head: bytes, b: byte, tail: bytes)
    requires b !in head
    ensures SplitOnce(head + [b] + tail, b) == Some((head, tail))
  {
    var s := head + [b] + tail;
    assert forall k :: 0 <= k < |head| ==> s[k] == head[k] && s[k] != b;
    IndexOfIs(s, b, |head|);
    assert s[..|head|] == head && s[|head| + 1..] == tail;
  }

  /** Splits at the first two spaces and parses mode and size; the rest is the name. */
  function ParseControl(line: bytes, kind: byte): Option<Control>
    requires kind != NEWLINE
  {
    if line == [] || line[0] != kind || line[|line| - 1] != NEWLINE then None
    else if !Utf8(line[1..|line| - 1]) then None
    else ParseFields(line[1..|line| - 1])
  }

  function ParseFields(text: bytes): Option<Control> {
    match SplitOnce(text, SPACE)
    case None => None
    case Some((mode, tail)) =>
      match SplitOnce(tail, SPACE)
      case None => None
      case Some((size, name)) =>
        match (ParseUnsigned(mode, 8, U32_MAX), ParseUnsigned(size, 10, U64_MAX))
        case (Some(m), Some(n)) => Some(Control(m % PERMISSION_BITS, n, name))
        case _ => None
  }

  /**
   * The parser undoes the printer for every permission word, every 64-bit
   * size and every UTF-8 name, spaces included.
   */
  lemma ControlRoundTrip(kind: byte, mode: nat, size: nat, name: bytes)
    requires kind != NEWLINE
    requires mode <= U32_MAX && size <= U64_MAX && Utf8(name)
    ensures ParseControl(ControlLine(kind, mode, size, name), kind)
         == Some(Control(mode % PERMISSION_BITS, size, name))
  {
    FieldsRoundTrip(mode, size, name);
    FieldsAreUtf8(mode, size, name);
    ParseRecord(kind, ControlFields(mode, size) + name, Control(mode % PERMISSION_BITS, size, name));
  }

  lemma FieldsAreUtf8(mode: nat, size: nat, name: bytes)
    requires Utf8(name)
    ensures Utf8(ControlFields(mode, size) + name)
  {
    Utf8AfterAscii(ControlFields(mode, size), name);
  }

  lemma ParseRecord(kind: byte, text: bytes, control: Control)
    requires kind != NEWLINE && Utf8(text) && ParseFields(text) == Some(control)
    ensures ParseControl(Record(kind, text), kind) == Some(control)
  {
    RecordText(kind, text);
  }

  lemma MaskedRoundTrip(kind: byte, mode: nat, size: nat, name: bytes)
    requires kind != NEWLINE
    requires mode < PERMISSION_BITS && size <= U64_MAX && Utf8(name)
    ensures ParseControl(ControlLine(kind, mode, size, name), kind) == Some(Control(mode, size, name))
    ensures ControlLine(kind, mode, size, name)[0] == kind
  {
    assert mode % PERMISSION_BITS == mode;
    ControlRoundTrip(kind, mode, size, name);
  }

  lemma FieldsRoundTrip(mode: nat, size: nat, name: bytes)
    requires mode <= U32_MAX && size <= U64_MAX
    ensures ParseFields(ControlFields(mode, size) + name)
         == Some(Control(mode % PERMISSION_BITS, size, name))
  {
    var o, d := Octal4(mode), Decimal(size);
    var tail := d + [SPACE] + name;
    assert ControlFields(mode, size) + name == o + [SPACE] + tail;
    SplitOnceJoined(o, SPACE, tail);
    SplitOnceJoined(d, SPACE, name);
    OctalRoundTrip(mode);
    DecimalRoundTrip(size, U64_MAX);
  }

  // ----- Time records -----

  predicate AsciiWhitespace(b: byte) {
    b == 32 || b == 9 || b == 10 || b == 12 || b == 13
  }

  function WordLength(s: bytes): (n: nat)
    ensures n <= |s|
    ensures forall k :: 0 <= k < n ==> !AsciiWhitespace(s[k])
    ensures n < |s| ==> AsciiWhitespace(s[n])
  {
    if s == [] || AsciiWhitespace(s[0]) then 0 else 1 + WordLength(s[1..])
  }

  /** `split_ascii_whitespace`: the maximal runs of other bytes. */
  function Fields(s: bytes): seq<bytes>
    decreases |s|
  {
    if s == [] then []
    else if AsciiWhitespace(s[0]) then Fields(s[1..])
    else
      var n := WordLength(s);
      [s[..n]] + Fields(s[n..])
  }

  predicate Word(s: bytes) {
    s != [] && forall k :: 0 <= k < |s| ==> !AsciiWhitespace(s[k])
  }

  lemma FieldsOfWord(w: bytes, rest: bytes)
    requires Word(w)
    requires rest == [] || AsciiWhitespace(rest[0])
    ensures Fields(w + rest) == [w] + Fields(rest)
  {
    var s := w + rest;
    assert forall k :: 0 <= k < |w| ==> s[k] == w[k];
    assert rest != [] ==> s[|w|] == rest[0];
    assert WordLength(s) == |w|;
    assert s[..|w|] == w && s[|w|..] == rest;
  }

  lemma FieldsOfCons(w: bytes, rest: bytes)
    requires Word(w)
    ensures Fields(w + ([SPACE] + rest)) == [w] + Fields(rest)
  {
    FieldsOfWord(w, [SPACE] + rest);
    assert ([SPACE] + rest)[1..] == rest;
  }

  /** Four fields, each an unsigned 64-bit number. */
  predicate ParseTimes(line: bytes)
    requires |line| >= 2
  {
    var fields := Fields(line[1..|line| - 1]);
    && Utf8(line)
    && |fields| == 4
    && forall i :: 0 <= i < 4 ==> ParseUnsigned(fields[i], 10, U64_MAX).Some?
  }

  function TimesText(modified: bytes, zero: bytes, accessed: bytes): bytes {
    modified + ([SPACE] + (zero + ([SPACE] + (accessed + ([SPACE] + zero)))))
  }

  /** `T{modified} 0 {accessed} 0` and a newline. */
  function TimesLine(modified: nat, accessed: nat): bytes {
    Record(LETTER_T, TimesText(Decimal(modified), Decimal(0), Decimal(accessed)))
  }

  lemma FieldsOfTimes(modified: bytes, zero: bytes, accessed: bytes)
    requires Word(modified) && Word(zero) && Word(accessed)
    ensures Fields(TimesText(modified, zero, accessed)) == [modified, zero, accessed, zero]
  {
    FieldsOfWord(zero, []);
    assert zero + [] == zero;
    FieldsOfCons(accessed, zero);
    FieldsOfCons(zero, accessed + ([SPACE] + zero));
    FieldsOfCons(modified, zero + ([SPACE] + (accessed + ([SPACE] + zero))));
  }

  lemma TimesTextIsUtf8(modified: bytes, zero: bytes, accessed: bytes)
    requires Ascii(modified) && Ascii(zero) && Ascii(accessed)
    ensures Utf8(Record(LETTER_T, TimesText(modified, zero, accessed)))
  {
    var line := Record(LETTER_T, TimesText(modified, zero, accessed));
    assert Ascii(TimesText(modified, zero, accessed));
    Utf8AfterAscii(line, []);
    assert line + [] == line;
  }

  /** The sink accepts every time record the source prints. */
  lemma TimesAccepted(modified: nat, accessed: nat)
    requires modified <= U64_MAX && accessed <= U64_MAX
    ensures ParseTimes(TimesLine(modified, accessed))
  {
    var m, z, a := Decimal(modified), Decimal(0), Decimal(accessed);
    TimesTextIsUtf8(m, z, a);
    FieldsOfTimes(m, z, a);
    DecimalRoundTrip(modified, U64_MAX);
    DecimalRoundTrip(accessed, U64_MAX);
    DecimalRoundTrip(0, U64_MAX);
    RecordText(LETTER_T, TimesText(m, z, a));
    FourNumbers(TimesLine(modified, accessed), m, z, a);
  }

  lemma RecordText(kind: byte, text: bytes)
    ensures |Record(kind, text)| >= 2 && Record(kind, text)[1..|Record(kind, text)| - 1] == text
  {
  }

  lemma FourNumbers(line: bytes, modified: bytes, zero: bytes, accessed: bytes)
    requires |line| >= 2 && Utf8(line) && Fields(line[1..|line| - 1]) == [modified, zero, accessed, zero]
    requires ParseUnsigned(modified, 10, U64_MAX).Some?
    requires ParseUnsigned(zero, 10, U64_MAX).Some?
    requires ParseUnsigned(accessed, 10, U64_MAX).Some?
    ensures ParseTimes(line)
  {
  }

  // ----- Names -----

  /** A single path component that is safe to create below a directory. */
  predicate ValidName(name: bytes) {
    && name != []
    && name != [DOT] && name != [DOT, DOT]
    && SLASH !in name && BACKSLASH !in name
    && !HasControl(name)
  }

  predicate Separator(b: byte) {
    b == SLASH || b == BACKSLASH
  }

  /** What follows the last slash or backslash. */
  function Leaf(s: bytes): (leaf: bytes)
    ensures forall k :: 0 <= k < |leaf| ==> !Separator(leaf[k])
  {
    if s == [] || Separator(s[|s| - 1]) then [] else Leaf(s[..|s| - 1]) + [s[|s| - 1]]
  }

  predicate DrivePrefix(s: bytes) {
    && |s| >= 4
    && (InRange(s[0], 65, 90) || InRange(s[0], 97, 122))
    && s[1] == COLON
    && Separator(s[2])
  }

  /** A plain name as it is, or the last component of an absolute Windows path. */
  function PortableName(name: bytes): (leaf: Option<bytes>)
    ensures leaf.Some? ==> ValidName(leaf.value)
  {
    if ValidName(name) then Some(name)
    else if DrivePrefix(name) && ValidName(Leaf(name)) then Some(Leaf(name))
    else None
  }

  /** A control line carries exactly one newline, at its end, when its name is valid. */
  lemma ControlLineShape(kind: byte, mode: nat, size: nat, name: bytes)
    requires kind != NEWLINE && ValidName(name)
    ensures
      var line := ControlLine(kind, mode, size, name);
      && |line| >= 2 && line[0] == kind && line[|line| - 1] == NEWLINE
      && NEWLINE !in line[..|line| - 1]
  {
    var line := ControlLine(kind, mode, size, name);
    assert line[..|line| - 1] == [kind] + (ControlFields(mode, size) + name);
    assert NEWLINE !in name by {
      if k: nat :| k < |name| && name[k] == NEWLINE {
        assert ControlAt(name, k);
      }
    }
    assert NEWLINE !in ControlFields(mode, size);
  }
}
