/**
 * Redaction of captured process output: successive replacement of secret
 * values by a marker, then truncation.
 */
module Redaction {
  import opened Common

  const CAPTURE_LIMIT: nat := 262144

  const LESS: byte := 60
  const GREATER: byte := 62

  /** The word "redacted". */
  const WORD: bytes := [114, 101, 100, 97, 99, 116, 101, 100]

  const MARKER: bytes := [LESS] + WORD + [GREATER]

  ghost predicate Occurs(text: bytes, value: bytes) {
    exists k :: MatchesAt(text, value, k)
  }

  lemma ShiftedMatches(text: bytes, value: bytes)
    requires text != []
    ensures forall k :: 1 <= k ==> MatchesAt(text, value, k) == MatchesAt(text[1..], value, k - 1)
  {
    forall k | 1 <= k && k + |value| <= |text|
      ensures MatchesAt(text, value, k) == MatchesAt(text[1..], value, k - 1)
    {
      SliceOfSlice(text, 1, |text|, k - 1, k - 1 + |value|);
    }
  }

  /** The first offset at which the needle matches: `windows(..).position(..)`. */
  function Position(haystack: bytes, needle: bytes): (i: Option<nat>)
    requires needle != []
    ensures i.Some? ==> MatchesAt(haystack, needle, i.value)
    ensures i.Some? ==> forall k :: 0 <= k < i.value ==> !MatchesAt(haystack, needle, k)
    ensures i.None? ==> forall k :: !MatchesAt(haystack, needle, k)
    decreases |haystack|
  {
    if |haystack| < |needle| then None
    else if haystack[..|needle|] == needle then Some(0)
    else
      ShiftedMatches(haystack, needle);
      var i := Position(haystack[1..], needle);
      if i.Some? then Some(i.value + 1) else None
  }

  /** Leftmost, non-overlapping replacement. */
  function Replaced(haystack: bytes, needle: bytes): bytes
    requires needle != []
    decreases |haystack|
  {
    match Position(haystack, needle)
    case None => haystack
    case Some(i) => haystack[..i] + MARKER + Replaced(haystack[i + |needle|..], needle)
  }

  lemma Regroup(a: bytes, b: bytes, c: bytes, d: bytes)
    ensures a + (b + c + d) == a + b + c + d
  {
  }

  method ReplaceAll(haystack: bytes, needle: bytes) returns (result: bytes)
    requires needle != []
    ensures result == Replaced(haystack, needle)
  {
    result := [];
    var rest := haystack;
    var index := Position(rest, needle);
    while index.Some?
      invariant index == Position(rest, needle)
      invariant result + Replaced(rest, needle) == Replaced(haystack, needle)
      decreases |rest|
    {
      ghost var tail := Replaced(rest[index.value + |needle|..], needle);
      Regroup(result, rest[..index.value], MARKER, tail);
      result := result + rest[..index.value] + MARKER;
      rest := rest[index.value + |needle|..];
      index := Position(rest, needle);
    }
    result := result + rest;
  }

  function Pass(text: bytes, value: bytes): bytes {
    if value == [] then text else Replaced(text, value)
  }

  function Passes(text: bytes, values: seq<bytes>): bytes
    decreases |values|
  {
    if values == [] then text else Passes(Pass(text, values[0]), values[1..])
  }

  /** A diagnostic buffer that is redacted in place. */
  class Capture {
    var text: bytes

    constructor (contents: bytes)
      ensures text == contents
    {
      text := contents;
    }

    method RedactValues(redactions: seq<bytes>)
      modifies this
      ensures text == Passes(old(text), redactions)[..Min(|Passes(old(text), redactions)|, CAPTURE_LIMIT)]
    {
      for i := 0 to |redactions|
        invariant Passes(text, redactions[i..]) == Passes(old(text), redactions)
      {
        assert redactions[i..][1..] == redactions[i + 1..];
        if redactions[i] == [] {
          continue;
        }
        text := ReplaceAll(text, redactions[i]);
      }
      assert text == Passes(old(text), redactions);
      if |text| > CAPTURE_LIMIT {
        text := text[..CAPTURE_LIMIT];
      }
    }
  }

  // ----- What replacing leaves -----

  ghost function Joined(parts: seq<bytes>, glue: bytes): bytes {
    if parts == [] then []
    else if |parts| == 1 then parts[0]
    else parts[0] + glue + Joined(parts[1..], glue)
  }

  /**
   * The parts between the matches: with the value between them they are the
   * text, the value begins nowhere in a part before the match that follows
   * it, and the last part has no match.
   */
  ghost predicate Cuts(parts: seq<bytes>, text: bytes, value: bytes) {
    && parts != [] && Joined(parts, value) == text
    && (forall i :: 0 <= i < |parts| - 1 ==> FirstAtTheEnd(parts[i], value))
    && !Occurs(parts[|parts| - 1], value)
  }

  ghost predicate FirstAtTheEnd(part: bytes, value: bytes) {
    forall k :: 0 <= k < |part| ==> !MatchesAt(part + value, value, k)
  }

  /** Looking only at the front changes nothing for a match that ends there. */
  lemma MatchInFront(front: bytes, rest: bytes, value: bytes, k: int)
    requires k + |value| <= |front|
    ensures MatchesAt(front + rest, value, k) == MatchesAt(front, value, k)
  {
    if 0 <= k {
      assert (front + rest)[k..k + |value|] == front[k..k + |value|];
    }
  }

  lemma PositionOfCut(part: bytes, rest: bytes, value: bytes)
    requires value != [] && FirstAtTheEnd(part, value)
    ensures Position(part + value + rest, value) == Some(|part|)
  {
    var text := part + value + rest;
    assert text[|part|..|part| + |value|] == value;
    forall k | 0 <= k < |part|
      ensures !MatchesAt(text, value, k)
    {
      MatchInFront(part + value, rest, value, k);
    }
    assert MatchesAt(text, value, |part|);
  }

  lemma CutsTail(parts: seq<bytes>, text: bytes, value: bytes)
    requires Cuts(parts, text, value) && |parts| > 1
    ensures text == parts[0] + value + Joined(parts[1..], value)
    ensures Cuts(parts[1..], Joined(parts[1..], value), value)
  {
  }

  /** The markers stand exactly where the value stood; everything between the matches is still there. */
  lemma {:induction false} ReplacedIsRejoined(text: bytes, value: bytes, parts: seq<bytes>)
    requires value != [] && Cuts(parts, text, value)
    ensures Replaced(text, value) == Joined(parts, MARKER)
    decreases |parts|
  {
    if |parts| == 1 {
      assert Position(text, value).None?;
    } else {
      var rest := Joined(parts[1..], value);
      CutsTail(parts, text, value);
      PositionOfCut(parts[0], rest, value);
      assert text[..|parts[0]|] == parts[0] && text[|parts[0]| + |value|..] == rest;
      ReplacedIsRejoined(rest, value, parts[1..]);
    }
  }

  lemma CutInFront(part: bytes, parts: seq<bytes>, rest: bytes, value: bytes)
    requires FirstAtTheEnd(part, value) && Cuts(parts, rest, value)
    ensures Cuts([part] + parts, part + value + rest, value)
  {
    var all := [part] + parts;
    assert all[1..] == parts;
    assert forall i :: 1 <= i < |all| ==> all[i] == parts[i - 1];
  }

  /** Every text is cut in this way. */
  lemma {:induction false} EveryTextIsCut(text: bytes, value: bytes) returns (parts: seq<bytes>)
    requires value != []
    ensures Cuts(parts, text, value)
    decreases |text|
  {
    match Position(text, value)
    case None => parts := [text];
    case Some(i) =>
      var part, rest := text[..i], text[i + |value|..];
      parts := EveryTextIsCut(rest, value);
      assert text[..i] + value == text[..i + |value|];
      assert text == part + value + rest;
      forall k | 0 <= k < |part|
        ensures !MatchesAt(part + value, value, k)
      {
        MatchInFront(part + value, rest, value, k);
      }
      CutInFront(part, parts, rest, value);
      parts := [part] + parts;
  }

  /** One replacement, for every text and value, in terms of what is kept and what is not. */
  lemma ReplacedMeans(text: bytes, value: bytes, result: bytes)
    requires value != []
    ensures result == Replaced(text, value) <==>
      exists parts :: Cuts(parts, text, value) && Joined(parts, MARKER) == result
  {
    var parts := EveryTextIsCut(text, value);
    ReplacedIsRejoined(text, value, parts);
    forall other | Cuts(other, text, value)
      ensures Joined(other, MARKER) == Replaced(text, value)
    {
      ReplacedIsRejoined(text, value, other);
    }
  }

  /** The values are replaced one after another, the first one first; an empty value replaces nothing. */
  lemma {:induction false} PassesInOrder(text: bytes, values: seq<bytes>, last: bytes)
    ensures Passes(text, []) == text
    ensures Passes(text, values + [last])
         == if last == [] then Passes(text, values) else Replaced(Passes(text, values), last)
    decreases |values|
  {
    if values == [] {
      assert values + [last] == [last];
    } else {
      assert (values + [last])[1..] == values[1..] + [last];
      PassesInOrder(Pass(text, values[0]), values[1..], last);
    }
  }

  // ----- No value survives -----

  predicate Bracketless(value: bytes) {
    LESS !in value && GREATER !in value
  }

  ghost predicate Absent(text: bytes, value: bytes) {
    value != [] ==> !Occurs(text, value)
  }

  /** The value, laid over the marker with its start at offset `d`, agrees with it wherever they overlap. */
  predicate Agrees(value: bytes, d: int) {
    forall i :: 0 <= i < |value| && 0 <= d + i < |MARKER| ==> value[i] == MARKER[d + i]
  }

  predicate Overlaps(value: bytes, d: int) {
    -|value| < d < |MARKER| && Agrees(value, d)
  }

  /**
   * The value can share no byte with a marker: it lies in none, holds none,
   * ends in none's start, starts in none's end.
   */
  ghost predicate Apart(value: bytes) {
    forall d :: !Overlaps(value, d)
  }

  /** A match lies before the marker, behind it, or shares a byte with it. */
  lemma MatchNearMarker(before: bytes, after: bytes, value: bytes, k: int)
    requires MatchesAt(before + MARKER + after, value, k)
    ensures
      || MatchesAt(before, value, k)
      || MatchesAt(after, value, k - |before| - |MARKER|)
      || Overlaps(value, k - |before|)
  {
    var text := before + MARKER + after;
    var d := k - |before|;
    if d >= |MARKER| {
      var j := d - |MARKER|;
      assert text[k..k + |value|] == after[j..j + |value|];
    } else if d + |value| <= 0 {
      assert text[k..k + |value|] == before[k..k + |value|];
    } else {
      forall i | 0 <= i < |value| && 0 <= d + i < |MARKER|
        ensures value[i] == MARKER[d + i]
      {
        assert text[k..k + |value|][i] == text[k + i];
        assert text[|before| + (d + i)] == MARKER[d + i];
      }
    }
  }

  lemma MarkerSeparates(before: bytes, after: bytes, value: bytes)
    requires value != [] && Apart(value)
    requires !Occurs(before, value) && !Occurs(after, value)
    ensures !Occurs(before + MARKER + after, value)
  {
    if Occurs(before + MARKER + after, value) {
      var k :| MatchesAt(before + MARKER + after, value, k);
      MatchNearMarker(before, after, value, k);
      assert false;
    }
  }

  /** Without angle brackets a value can only lie in the marker's word. */
  lemma BracketlessIsApart(value: bytes)
    requires value != [] && Bracketless(value)
    ensures Apart(value) <==> !Occurs(WORD, value)
  {
    if Occurs(WORD, value) {
      var k :| MatchesAt(WORD, value, k);
      forall i | 0 <= i < |value| && 0 <= k + 1 + i < |MARKER|
        ensures value[i] == MARKER[k + 1 + i]
      {
        assert WORD[k..k + |value|][i] == WORD[k + i];
      }
      assert Overlaps(value, k + 1);
    }
    forall d | Overlaps(value, d)
      ensures Occurs(WORD, value)
    {
      EndsAreBrackets(value, d);
      OverlapLiesInside(value, d);
    }
  }

  /** A value that reaches over an end of the marker holds the bracket there. */
  lemma EndsAreBrackets(value: bytes, d: int)
    requires value != [] && Overlaps(value, d)
    ensures d <= 0 ==> LESS in value
    ensures d + |value| >= |MARKER| ==> GREATER in value
  {
    if d <= 0 {
      assert value[-d] == MARKER[0];
    }
    if d + |value| >= |MARKER| {
      var last := |MARKER| - 1;
      if last - d < |value| && d <= last {
        assert value[last - d] == MARKER[last];
      }
    }
  }

  lemma OverlapLiesInside(value: bytes, d: int)
    requires value != [] && Overlaps(value, d) && 0 < d && d + |value| < |MARKER|
    ensures MatchesAt(WORD, value, d - 1)
  {
    var k := d - 1;
    forall i | 0 <= i < |value|
      ensures WORD[k..k + |value|][i] == value[i]
    {
      assert MARKER[d + i] == WORD[k + i];
    }
    assert WORD[k..k + |value|] == value;
  }

  /** Nothing before the first match of a value contains it. */
  lemma NoneBeforeFirst(text: bytes, value: bytes)
    requires value != [] && Position(text, value).Some?
    ensures !Occurs(text[..Position(text, value).value], value)
  {
    var i := Position(text, value).value;
    if Occurs(text[..i], value) {
      var k :| MatchesAt(text[..i], value, k);
      assert text[..i][k..k + |value|] == text[k..k + |value|];
      assert MatchesAt(text, value, k);
      assert false;
    }
  }

  lemma SuffixLacks(text: bytes, value: bytes, from: nat)
    requires from <= |text|
    ensures Occurs(text[from..], value) ==> Occurs(text, value)
  {
    if Occurs(text[from..], value) {
      var k :| MatchesAt(text[from..], value, k);
      assert text[from..][k..k + |value|] == text[from + k..from + k + |value|];
      assert MatchesAt(text, value, from + k);
    }
  }

  lemma PrefixLacks(text: bytes, value: bytes, to: nat)
    requires to <= |text|
    ensures Occurs(text[..to], value) ==> Occurs(text, value)
  {
    if Occurs(text[..to], value) {
      var k :| MatchesAt(text[..to], value, k);
      assert text[..to][k..k + |value|] == text[k..k + |value|];
      assert MatchesAt(text, value, k);
    }
  }

  /** Replacing one value removes it and brings no other value back. */
  lemma {:induction false} ReplacedLacks(text: bytes, needle: bytes, value: bytes)
    requires needle != [] && value != [] && Apart(value)
    requires value == needle || !Occurs(text, value)
    ensures !Occurs(Replaced(text, needle), value)
    decreases |text|
  {
    var position := Position(text, needle);
    if position.Some? {
      var i := position.value;
      PartsLack(text, needle, value);
      ReplacedLacks(text[i + |needle|..], needle, value);
      MarkerSeparates(text[..i], Replaced(text[i + |needle|..], needle), value);
    }
  }

  /** What lies before the first match, and what lies behind it unless the match itself is looked for. */
  lemma PartsLack(text: bytes, needle: bytes, value: bytes)
    requires needle != [] && value != [] && Position(text, needle).Some?
    requires value == needle || !Occurs(text, value)
    ensures
      var i := Position(text, needle).value;
      && !Occurs(text[..i], value)
      && (value == needle || !Occurs(text[i + |needle|..], value))
  {
    var i := Position(text, needle).value;
    if value == needle {
      NoneBeforeFirst(text, value);
    } else {
      PrefixLacks(text, value, i);
      SuffixLacks(text, value, i + |needle|);
    }
  }

  lemma {:induction false} PassesKeepAbsent(text: bytes, values: seq<bytes>, value: bytes)
    requires Apart(value)
    requires Absent(text, value)
    ensures Absent(Passes(text, values), value)
    decreases |values|
  {
    if values != [] {
      if values[0] != [] && value != [] {
        ReplacedLacks(text, values[0], value);
      }
      PassesKeepAbsent(Pass(text, values[0]), values[1..], value);
    }
  }

  lemma {:induction false} PassesRemove(text: bytes, values: seq<bytes>, value: bytes)
    requires Apart(value)
    requires value in values
    ensures Absent(Passes(text, values), value)
    decreases |values|
  {
    if values[0] == value {
      if value != [] {
        ReplacedLacks(text, value, value);
      }
      PassesKeepAbsent(Pass(text, value), values[1..], value);
    } else {
      PassesRemove(Pass(text, values[0]), values[1..], value);
    }
  }

  /**
   * After redaction and truncation no value occurs anywhere in the output, for
   * every input, provided it can share no byte with the marker.
   */
  lemma NothingLeaks(text: bytes, values: seq<bytes>, value: bytes)
    requires value in values && value != []
    requires Apart(value)
    ensures !Occurs(Passes(text, values)[..Min(|Passes(text, values)|, CAPTURE_LIMIT)], value)
  {
    PassesRemove(text, values, value);
    PrefixLacks(Passes(text, values), value, Min(|Passes(text, values)|, CAPTURE_LIMIT));
  }

  // ----- Exactly which values are safe -----

  lemma MarkerStays(text: bytes, value: bytes)
    requires Occurs(text, MARKER)
    ensures Occurs(Pass(text, value), MARKER)
  {
    if value != [] && Position(text, value).Some? {
      ReplacedHasMarker(text, value);
    }
  }

  lemma ReplacedHasMarker(text: bytes, value: bytes)
    requires value != [] && Occurs(text, value)
    ensures Occurs(Replaced(text, value), MARKER)
  {
    var k :| MatchesAt(text, value, k);
    var i := Position(text, value).value;
    assert MatchesAt(Replaced(text, value), MARKER, i);
  }

  lemma {:induction false} MarkerAppears(text: bytes, values: seq<bytes>, value: bytes)
    requires value != []
    requires Occurs(text, MARKER) || (value in values && text == value)
    ensures Occurs(Passes(text, values), MARKER)
    decreases |values|
  {
    if values != [] {
      if Occurs(text, MARKER) {
        MarkerStays(text, values[0]);
      } else if values[0] != [] {
        if Position(text, values[0]).Some? {
          ReplacedHasMarker(text, values[0]);
        } else {
          assert MatchesAt(text, value, 0);
        }
      }
      MarkerAppears(Pass(text, values[0]), values[1..], value);
    }
  }

  lemma OccursInside(text: bytes, outer: bytes, inner: bytes, offset: nat)
    requires Occurs(text, outer) && MatchesAt(outer, inner, offset)
    ensures Occurs(text, inner)
  {
    var k :| MatchesAt(text, outer, k);
    SliceOfSlice(text, k, k + |outer|, offset, offset + |inner|);
    assert MatchesAt(text, inner, k + offset);
  }

  ghost predicate AllAbsent(text: bytes, values: seq<bytes>) {
    forall v :: v in values ==> Absent(text, v)
  }

  /**
   * For values without angle brackets: the passes hide all of them on every
   * input if and only if none of them is part of the marker's word.
   */
  lemma SafeExactlyOutsideTheMarker(values: seq<bytes>)
    requires forall v :: v in values ==> Bracketless(v)
    ensures HidesAlways(values) <==> AllAbsent(WORD, values)
  {
    if AllAbsent(WORD, values) {
      forall text: bytes
        ensures AllAbsent(Passes(text, values), values)
      {
        SafeValues(text, values);
      }
    } else {
      var v :| v in values && !Absent(WORD, v);
      PartOfTheMarkerShows(values, v);
      assert !AllAbsent(Passes(v, values), values);
    }
  }

  ghost predicate HidesAlways(values: seq<bytes>) {
    forall text: bytes :: AllAbsent(Passes(text, values), values)
  }

  lemma SafeValues(text: bytes, values: seq<bytes>)
    requires forall v :: v in values ==> Bracketless(v) && Absent(WORD, v)
    ensures AllAbsent(Passes(text, values), values)
  {
    forall v | v in values
      ensures Absent(Passes(text, values), v)
    {
      if v != [] {
        BracketlessIsApart(v);
        PassesRemove(text, values, v);
      }
    }
  }

  /** A value that is part of the marker's word shows in what becomes of itself. */
  lemma PartOfTheMarkerShows(values: seq<bytes>, value: bytes)
    requires value in values && !Absent(WORD, value)
    ensures Occurs(Passes(value, values), value)
  {
    var k :| MatchesAt(WORD, value, k);
    MarkerAppears(value, values, value);
    assert MARKER[1..1 + |WORD|] == WORD;
    OccursInside(Passes(value, values), MARKER, WORD, 1);
    OccursInside(Passes(value, values), WORD, value, k);
  }
}
