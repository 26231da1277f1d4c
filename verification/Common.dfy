/** Small types shared by every model of the project. */
module Common {

  datatype Option<+T> = None | Some(value: T)

  /** An octet, as carried by an SSH channel or stored in a file. */
  type byte = x: int | 0 <= x < 256

  type bytes = seq<byte>

  function Min(a: int, b: int): int {
    if a < b then a else b
  }

  function Max(a: int, b: int): int {
    if a < b then b else a
  }

  /** `v` starts at offset `k` of `s`. */
  predicate MatchesAt<T(==)>(s: seq<T>, v: seq<T>, k: int) {
    0 <= k && k + |v| <= |s| && s[k..k + |v|] == v
  }

  lemma SliceOfSlice<T>(s: seq<T>, a: nat, b: nat, c: nat, d: nat)
    requires a <= b <= |s| && c <= d <= b - a
    ensures s[a..b][c..d] == s[a + c..a + d]
  {
    var t := s[a..b];
    forall i | 0 <= i < d - c
      ensures t[c..d][i] == s[a + c..a + d][i]
    {
      assert t[c..d][i] == t[c + i];
      assert s[a + c..a + d][i] == s[a + (c + i)];
    }
    assert t[c..d] == s[a + c..a + d];
  }

  /** Offset of the first `x`, or the length when there is none. */
  function IndexOf<T(==)>(s: seq<T>, x: T): (i: nat)
    ensures i <= |s|
    ensures forall k :: 0 <= k < i ==> s[k] != x
    ensures i < |s| ==> s[i] == x
  {
    if s == [] || s[0] == x then 0 else 1 + IndexOf(s[1..], x)
  }

  lemma IndexOfIs<T>(s: seq<T>, x: T, i: nat)
    requires i < |s| && s[i] == x
    requires forall k :: 0 <= k < i ==> s[k] != x
    ensures IndexOf(s, x) == i
  {
  }

  ghost predicate Distinct<T>(s: seq<T>) {
    forall i, j :: 0 <= i < j < |s| ==> s[i] != s[j]
  }

  /** Rust's `char::is_whitespace`: the Unicode property White_Space. */
  predicate UnicodeWhitespace(c: char) {
    || '\U{0009}' <= c <= '\U{000D}'
    || c == ' ' || c == '\U{0085}' || c == '\U{00A0}' || c == '\U{1680}'
    || '\U{2000}' <= c <= '\U{200A}'
    || c == '\U{2028}' || c == '\U{2029}' || c == '\U{202F}' || c == '\U{205F}' || c == '\U{3000}'
  }

  function TrimStart(text: string): string {
    if text != "" && UnicodeWhitespace(text[0]) then TrimStart(text[1..]) else text
  }

  /** A clock that advances by exactly what is slept. */
  class Clock {
    var now: nat

    constructor (start: nat)
      ensures now == start
    {
      now := start;
    }

    method SleepFor(duration: nat)
      modifies this
      ensures now == old(now) + duration
    {
      now := now + duration;
    }
  }
}
