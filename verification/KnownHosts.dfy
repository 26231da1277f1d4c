/**
 * Host-key trust over the text of a known_hosts file: the endpoint search,
 * learning, and the policies of the client. Each line is seen as its words.
 */
module KnownHosts {
  import opened Common

  // ----- Lines and words -----

  function StripReturn(line: string): string {
    if line != "" && line[|line| - 1] == '\r' then line[..|line| - 1] else line
  }

  /** `str::lines`: a line ends in `\n` or `\r\n`; the last one need not end at all. */
  function Lines(text: string): seq<string>
    decreases |text|
  {
    if text == "" then []
    else
      var n := IndexOf(text, '\n');
      if n == |text| then [text] else [StripReturn(text[..n])] + Lines(text[n + 1..])
  }

  function WordLength(line: string): (n: nat)
    ensures n <= |line|
    ensures forall k :: 0 <= k < n ==> !UnicodeWhitespace(line[k])
    ensures n < |line| ==> UnicodeWhitespace(line[n])
  {
    if line == "" || UnicodeWhitespace(line[0]) then 0 else 1 + WordLength(line[1..])
  }

  /** `split_whitespace`. */
  function Words(line: string): seq<string>
    decreases |line|
  {
    if line == "" then []
    else if UnicodeWhitespace(line[0]) then Words(line[1..])
    else
      var n := WordLength(line);
      [line[..n]] + Words(line[n..])
  }

  /** The file as words: one list of words for each line. */
  function Rows(lines: seq<string>): (rows: seq<seq<string>>)
    ensures |rows| == |lines| && forall i :: 0 <= i < |rows| ==> rows[i] == Words(lines[i])
  {
    seq(|lines|, i requires 0 <= i < |lines| => Words(lines[i]))
  }

  function Table(text: string): seq<seq<string>> {
    Rows(Lines(text))
  }

  /** `split(',')`. */
  function Candidates(hosts: string): (c: seq<string>)
    ensures |c| >= 1
    decreases |hosts|
  {
    var n := IndexOf(hosts, ',');
    if n == |hosts| then [hosts] else [hosts[..n]] + Candidates(hosts[n + 1..])
  }

  // ----- Endpoints and keys -----

  function Digits(n: nat): (s: string)
    ensures s != "" && forall i :: 0 <= i < |s| ==> '0' <= s[i] <= '9'
  {
    if n < 10 then ["0123456789"[n]] else Digits(n / 10) + ["0123456789"[n % 10]]
  }

  /** How an endpoint is written in the file. */
  function Endpoint(host: string, port: nat): string {
    if port == 22 then host else "[" + host + "]:" + Digits(port)
  }

  /** The public key in its textual form: algorithm and encoded data. */
  datatype Key = Key(algorithm: string, data: string)

  predicate Token(s: string) {
    s != "" && forall i :: 0 <= i < |s| ==> !UnicodeWhitespace(s[i])
  }

  predicate ValidKey(key: Key) {
    Token(key.algorithm) && Token(key.data)
  }

  /** A host that stays one candidate of one word when it is written to the file. */
  predicate PlainHost(host: string) {
    Token(host) && ',' !in host
  }

  predicate RowNames(row: seq<string>, host: string, port: nat) {
    row != [] && exists i :: 0 <= i < |Candidates(row[0])| && CandidateNames(Candidates(row[0])[i], host, port)
  }

  predicate CandidateNames(candidate: string, host: string, port: nat) {
    candidate == Endpoint(host, port) || (port == 22 && candidate == "[" + host + "]:22")
  }

  /** `known_hosts_contains_endpoint` on the text of the file. */
  predicate ContainsEndpoint(text: string, host: string, port: nat) {
    exists i :: 0 <= i < |Table(text)| && RowNames(Table(text)[i], host, port)
  }

  /** `RusshKnownHosts::learn`: closes an open last line, then appends one entry. */
  function Learn(text: string, host: string, port: nat, key: Key): string {
    Closed(text) + (Entry(host, port, key) + "\n")
  }

  function Closed(text: string): string {
    if text != "" && text[|text| - 1] != '\n' then text + "\n" else text
  }

  function Entry(host: string, port: nat, key: Key): string {
    Endpoint(host, port) + (" " + (key.algorithm + (" " + key.data)))
  }

  // ----- What learning does to the table -----

  lemma {:induction false} WordsBeforeReturn(line: string)
    ensures Words(line + "\r") == Words(line)
    decreases |line|
  {
    var all := line + "\r";
    if line == "" {
      assert all[1..] == "";
    } else if UnicodeWhitespace(line[0]) {
      assert all[1..] == line[1..] + "\r";
      WordsBeforeReturn(line[1..]);
    } else {
      var n := WordLength(line);
      WordLengthIs(all, n);
      assert all[..n] == line[..n] && all[n..] == line[n..] + "\r";
      WordsBeforeReturn(line[n..]);
    }
  }

  lemma WordLengthIs(line: string, n: nat)
    requires n < |line| && UnicodeWhitespace(line[n])
    requires forall k :: 0 <= k < n ==> !UnicodeWhitespace(line[k])
    ensures WordLength(line) == n
  {
  }

  lemma WordsOfStripped(line: string)
    ensures Words(StripReturn(line)) == Words(line)
  {
    if line != "" && line[|line| - 1] == '\r' {
      assert line == line[..|line| - 1] + "\r";
      WordsBeforeReturn(line[..|line| - 1]);
    }
  }

  /** The words of the first line and the table of the rest. */
  lemma TableCons(line: string, rest: string)
    requires '\n' !in line
    ensures Table(line + ("\n" + rest)) == [Words(line)] + Table(rest)
  {
    LinesCons(line, rest);
    RowsCons(StripReturn(line), Lines(rest));
    WordsOfStripped(line);
  }

  lemma LinesCons(line: string, rest: string)
    requires '\n' !in line
    ensures Lines(line + ("\n" + rest)) == [StripReturn(line)] + Lines(rest)
  {
    var text := line + ("\n" + rest);
    IndexOfIs(text, '\n', |line|);
    assert text[..|line|] == line && text[|line| + 1..] == rest;
  }

  lemma RowsCons(line: string, lines: seq<string>)
    ensures Rows([line] + lines) == [Words(line)] + Rows(lines)
  {
    assert Rows([line] + lines)[1..] == Rows(lines);
  }

  predicate Ended(text: string) {
    text == "" || text[|text| - 1] == '\n'
  }

  /** A text with a newline is its first line, that newline and the rest. */
  lemma FirstLine(text: string, n: nat)
    requires n == IndexOf(text, '\n') && n < |text|
    ensures text == text[..n] + ("\n" + text[n + 1..])
    ensures '\n' !in text[..n]
  {
    SplitAt(text, n);
    assert forall k :: 0 <= k < n ==> text[..n][k] == text[k];
  }

  lemma SplitAt(text: string, n: nat)
    requires n < |text| && text[n] == '\n'
    ensures text == text[..n] + ("\n" + text[n + 1..])
  {
  }

  lemma Reassociate(line: string, rest: string, more: string)
    ensures line + ("\n" + rest) + more == line + ("\n" + (rest + more))
  {
  }

  /** Appending to a text whose last line has ended appends its table. */
  lemma {:induction false} TableAppend(text: string, more: string)
    requires Ended(text)
    ensures Table(text + more) == Table(text) + Table(more)
    decreases |text|
  {
    if text == "" {
      assert text + more == more;
    } else {
      var n := IndexOf(text, '\n');
      assert text[|text| - 1] == '\n';
      FirstLine(text, n);
      TableAppendCons(text[..n], text[n + 1..], more);
    }
  }

  lemma {:induction false} TableAppendCons(line: string, rest: string, more: string)
    requires '\n' !in line && Ended(rest)
    ensures
      var text := line + ("\n" + rest);
      Table(text + more) == Table(text) + Table(more)
    decreases |line| + 1 + |rest|, 0
  {
    TableAppend(rest, more);
    assert Table(line + ("\n" + rest) + more) == [Words(line)] + (Table(rest) + Table(more)) by {
      Reassociate(line, rest, more);
      TableCons(line, rest + more);
    }
    TableCons(line, rest);
    RowsAssociate([Words(line)], Table(rest), Table(more));
  }

  lemma RowsAssociate(a: seq<seq<string>>, b: seq<seq<string>>, c: seq<seq<string>>)
    ensures a + (b + c) == a + b + c
  {
  }

  /** Closing the last line changes no word. */
  lemma {:induction false} TableOfClosed(text: string)
    ensures Ended(Closed(text)) && Table(Closed(text)) == Table(text)
    decreases |text|
  {
    if !Ended(text) {
      var n := IndexOf(text, '\n');
      if n < |text| {
        FirstLine(text, n);
        var line, rest := text[..n], text[n + 1..];
        assert rest != "" && rest[|rest| - 1] == text[|text| - 1];
        Reassociate(line, rest, "\n");
        TableOfClosed(rest);
        TableCons(line, rest);
        TableCons(line, rest + "\n");
      } else {
        LastLine(text);
      }
    }
  }

  lemma LastLine(text: string)
    requires text != "" && IndexOf(text, '\n') == |text|
    ensures Table(text + "\n") == Table(text) == [Words(text)]
  {
    assert '\n' !in text;
    assert text + "\n" == text + ("\n" + "");
    TableCons(text, "");
    assert Table("") == [];
  }

  lemma WordsCons(word: string, rest: string)
    requires Token(word)
    ensures Words(word + (" " + rest)) == [word] + Words(rest)
  {
    var line := word + (" " + rest);
    WordLengthIs(line, |word|);
    assert line[..|word|] == word && line[|word|..] == " " + rest;
    assert (" " + rest)[1..] == rest;
  }

  lemma WordsOfToken(word: string)
    requires Token(word)
    ensures Words(word) == [word]
  {
    assert WordLength(word) == |word|;
    assert word[..|word|] == word;
    assert word[|word|..] == "";
  }

  lemma EndpointIsPlain(host: string, port: nat)
    requires PlainHost(host)
    ensures Token(Endpoint(host, port)) && ',' !in Endpoint(host, port)
    ensures Candidates(Endpoint(host, port)) == [Endpoint(host, port)]
  {
    var e := Endpoint(host, port);
    assert ',' !in e;
    assert IndexOf(e, ',') == |e|;
  }

  /** Learning keeps every earlier entry and adds exactly one, newline at the end or not. */
  lemma LearnAddsOneRow(text: string, host: string, port: nat, key: Key)
    requires PlainHost(host) && ValidKey(key)
    ensures Table(Learn(text, host, port, key))
         == Table(text) + [[Endpoint(host, port), key.algorithm, key.data]]
  {
    EndpointIsPlain(host, port);
    EntryRow(Endpoint(host, port), key);
    TableOfClosed(text);
    TableAppend(Closed(text), Entry(host, port, key) + "\n");
  }

  lemma EntryRow(endpoint: string, key: Key)
    requires Token(endpoint) && ValidKey(key)
    ensures Table(endpoint + (" " + (key.algorithm + (" " + key.data))) + "\n")
         == [[endpoint, key.algorithm, key.data]]
  {
    var entry := endpoint + (" " + (key.algorithm + (" " + key.data)));
    EntryWords(endpoint, key);
    NoNewline(endpoint, key);
    assert IndexOf(entry, '\n') == |entry|;
    LastLine(entry);
  }

  lemma EntryWords(endpoint: string, key: Key)
    requires Token(endpoint) && ValidKey(key)
    ensures Words(endpoint + (" " + (key.algorithm + (" " + key.data))))
         == [endpoint, key.algorithm, key.data]
  {
    WordsOfToken(key.data);
    WordsCons(key.algorithm, key.data);
    WordsCons(endpoint, key.algorithm + (" " + key.data));
    assert [endpoint] + ([key.algorithm] + [key.data]) == [endpoint, key.algorithm, key.data];
  }

  lemma NoNewline(endpoint: string, key: Key)
    requires Token(endpoint) && ValidKey(key)
    ensures '\n' !in endpoint + (" " + (key.algorithm + (" " + key.data)))
  {
    assert '\n' !in endpoint && '\n' !in key.algorithm && '\n' !in key.data;
  }

  lemma LearnedEndpointIsFound(text: string, host: string, port: nat, key: Key)
    requires PlainHost(host) && ValidKey(key)
    ensures ContainsEndpoint(Learn(text, host, port, key), host, port)
  {
    LearnAddsOneRow(text, host, port, key);
    EndpointIsPlain(host, port);
    var table := Table(Learn(text, host, port, key));
    var row := table[|table| - 1];
    assert CandidateNames(Candidates(row[0])[0], host, port);
    assert RowNames(row, host, port);
  }

  // ----- The library's check -----

  datatype Verdict = Matches | Changed | NotRecorded | Unreadable

  /** Some row records this key for the endpoint. */
  ghost predicate Recorded(table: seq<seq<string>>, host: string, port: nat, key: Key) {
    exists i :: 0 <= i < |table| && RowRecords(table[i], host, port, key)
  }

  predicate RowRecords(row: seq<string>, host: string, port: nat, key: Key) {
    && |row| >= 3
    && Endpoint(host, port) in Candidates(row[0])
    && row[1] == key.algorithm && row[2] == key.data
  }

  /**
   * What is assumed of the library's check for one endpoint: it matches only
   * recorded keys, it matches the one key that is recorded, and it finds
   * nothing when nothing names the endpoint.
   */
  ghost predicate Documented(check: (string, Key) -> Verdict, host: string, port: nat) {
    && (forall text, key :: check(text, key) == Matches ==> Recorded(Table(text), host, port, key))
    && (forall text, key :: Recorded(Table(text), host, port, key) && OnlyRecorded(text, host, port, key) ==>
          check(text, key) == Matches)
    && (forall text, key :: !ContainsEndpoint(text, host, port) ==> check(text, key) == NotRecorded)
  }

  ghost predicate OnlyRecorded(text: string, host: string, port: nat, key: Key) {
    forall other :: Recorded(Table(text), host, port, other) ==> other == key
  }

  /** A check that answers from the table alone. */
  ghost function TableCheck(text: string, host: string, port: nat, key: Key): Verdict {
    if Recorded(Table(text), host, port, key) && OnlyRecorded(text, host, port, key) then Matches
    else if ContainsEndpoint(text, host, port) then Changed
    else NotRecorded
  }

  /** The assumption can be met. */
  lemma TableCheckIsDocumented(host: string, port: nat)
    ensures Documented((text: string, key: Key) => TableCheck(text, host, port, key), host, port)
  {
    forall text: string, key: Key | !ContainsEndpoint(text, host, port)
      ensures TableCheck(text, host, port, key) == NotRecorded
    {
      if Recorded(Table(text), host, port, key) {
        RecordedIsNamed(text, host, port, key);
      }
    }
  }

  lemma RecordedIsNamed(text: string, host: string, port: nat, key: Key)
    requires Recorded(Table(text), host, port, key)
    ensures ContainsEndpoint(text, host, port)
  {
    var table := Table(text);
    var i :| 0 <= i < |table| && RowRecords(table[i], host, port, key);
    var k :| 0 <= k < |Candidates(table[i][0])| && Candidates(table[i][0])[k] == Endpoint(host, port);
    assert CandidateNames(Candidates(table[i][0])[k], host, port);
    assert RowNames(table[i], host, port);
  }

  /** After learning into a file that did not name the endpoint, exactly that key is recorded. */
  lemma LearnedIsTheOnlyKey(text: string, host: string, port: nat, key: Key)
    requires PlainHost(host) && ValidKey(key) && !ContainsEndpoint(text, host, port)
    ensures
      var text' := Learn(text, host, port, key);
      Recorded(Table(text'), host, port, key) && OnlyRecorded(text', host, port, key)
  {
    var text' := Learn(text, host, port, key);
    LearnAddsOneRow(text, host, port, key);
    EndpointIsPlain(host, port);
    var n := |Table(text)|;
    assert Candidates(Endpoint(host, port))[0] == Endpoint(host, port);
    assert RowRecords(Table(text')[n], host, port, key);
    forall other | Recorded(Table(text'), host, port, other)
      ensures other == key
    {
      var i :| 0 <= i < |Table(text')| && RowRecords(Table(text')[i], host, port, other);
      if i < n {
        assert Table(text')[i] == Table(text)[i];
        assert Recorded(Table(text), host, port, other);
        RecordedIsNamed(text, host, port, other);
        assert false;
      }
    }
  }

  // ----- check_server_key -----

  datatype Decision = Decision(accepts: bool, stores: bool)

  /** A prompt may come without a verifier to ask. */
  datatype Policy = RejectUnknown | Prompt(verifier: Option<Decision>) | TrustOnFirstUse | AcceptUnknown

  datatype Checked = Checked(accepted: bool, text: string)

  function CheckServerKey(
    check: (string, Key) -> Verdict, text: string, host: string, port: nat, policy: Policy, key: Key): Checked
  {
    match check(text, key)
    case Matches => Checked(true, text)
    case Changed => Checked(false, text)
    case Unreadable => Checked(false, text)
    case NotRecorded =>
      if ContainsEndpoint(text, host, port) then Checked(false, text)
      else
        match policy
        case RejectUnknown => Checked(false, text)
        case AcceptUnknown => Checked(true, text)
        case TrustOnFirstUse => Checked(true, Learn(text, host, port, key))
        case Prompt(None) => Checked(false, text)
        case Prompt(Some(decision)) =>
          if !decision.accepts then Checked(false, text)
          else if decision.stores then Checked(true, Learn(text, host, port, key))
          else Checked(true, text)
  }

  predicate AcceptsUnknown(policy: Policy) {
    policy.AcceptUnknown? || Learns(policy)
    || (policy.Prompt? && policy.verifier.Some? && policy.verifier.value.accepts)
  }

  predicate Learns(policy: Policy) {
    || policy.TrustOnFirstUse?
    || (policy.Prompt? && policy.verifier.Some? && policy.verifier.value.accepts && policy.verifier.value.stores)
  }

  datatype Connection = Connection(policy: Policy, key: Key)

  datatype Session = Session(text: string, accepted: seq<bool>)

  /** Connections one after another, sharing the file. */
  function Connect(
    check: (string, Key) -> Verdict, text: string, host: string, port: nat, connections: seq<Connection>): Session
    decreases |connections|
  {
    if connections == [] then Session(text, [])
    else
      var first := CheckServerKey(check, text, host, port, connections[0].policy, connections[0].key);
      var rest := Connect(check, first.text, host, port, connections[1..]);
      Session(rest.text, [first.accepted] + rest.accepted)
  }

  /** The first connection that learns, or the number of connections. */
  function FirstLearner(connections: seq<Connection>): (n: nat)
    ensures n <= |connections|
  {
    if connections == [] || Learns(connections[0].policy) then 0 else 1 + FirstLearner(connections[1..])
  }

  /** Once a key is pinned, it alone is accepted, whatever the policies, and the file stays as it is. */
  lemma {:induction false} PinnedForGood(
      check: (string, Key) -> Verdict, text: string, host: string, port: nat, pinned: Key,
      connections: seq<Connection>)
    requires Documented(check, host, port)
    requires Recorded(Table(text), host, port, pinned) && OnlyRecorded(text, host, port, pinned)
    ensures
      var s := Connect(check, text, host, port, connections);
      && s.text == text && |s.accepted| == |connections|
      && forall j :: 0 <= j < |connections| ==> (s.accepted[j] <==> connections[j].key == pinned)
    decreases |connections|
  {
    if connections != [] {
      RecordedIsNamed(text, host, port, pinned);
      var key := connections[0].key;
      assert check(text, key) == Matches <==> key == pinned;
      var first := CheckServerKey(check, text, host, port, connections[0].policy, key);
      assert first.text == text && (first.accepted <==> key == pinned);
      PinnedForGood(check, text, host, port, pinned, connections[1..]);
      var rest := Connect(check, text, host, port, connections[1..]);
      forall j | 0 <= j < |connections|
        ensures ([first.accepted] + rest.accepted)[j] <==> connections[j].key == pinned
      {
        if j > 0 {
          assert connections[j] == connections[1..][j - 1];
        }
      }
    }
  }

  /**
   * Any run of connections to an endpoint that the file does not name yet,
   * under any mix of policies. Up to the first learner the policies decide;
   * that one is accepted and its key is the only one ever learned; after it
   * exactly the connections with that key are accepted.
   */
  lemma {:induction false} TrustOnFirstLearner(
      check: (string, Key) -> Verdict, text: string, host: string, port: nat, connections: seq<Connection>)
    requires Documented(check, host, port) && PlainHost(host)
    requires forall j :: 0 <= j < |connections| ==> ValidKey(connections[j].key)
    requires !ContainsEndpoint(text, host, port)
    ensures
      var s := Connect(check, text, host, port, connections);
      var n := FirstLearner(connections);
      && |s.accepted| == |connections|
      && s.text == (if n == |connections| then text else Learn(text, host, port, connections[n].key))
      && FollowsPolicies(s.accepted, connections, n)
      && FollowsKey(s.accepted, connections, n)
    decreases |connections|
  {
    if connections != [] {
      var key := connections[0].key;
      var rest := connections[1..];
      assert check(text, key) == NotRecorded;
      UnknownKey(check, text, host, port, connections[0].policy, key);
      if Learns(connections[0].policy) {
        var learned := Learn(text, host, port, key);
        LearnedIsTheOnlyKey(text, host, port, key);
        PinnedForGood(check, learned, host, port, key, rest);
        FirstPins(Connect(check, learned, host, port, rest).accepted, connections);
      } else {
        TrustOnFirstLearner(check, text, host, port, rest);
        FirstFollowsPolicy(Connect(check, text, host, port, rest).accepted, connections, FirstLearner(rest));
        assert FirstLearner(connections) == 1 + FirstLearner(rest);
      }
    }
  }

  /** The first `n` connections are decided by their policies. */
  predicate FollowsPolicies(accepted: seq<bool>, connections: seq<Connection>, n: nat)
    requires |accepted| == |connections| && n <= |connections|
  {
    forall j :: 0 <= j < n ==> accepted[j] == AcceptsUnknown(connections[j].policy)
  }

  /** From connection `n` on, exactly those with its key are accepted. */
  predicate FollowsKey(accepted: seq<bool>, connections: seq<Connection>, n: nat)
    requires |accepted| == |connections| && n <= |connections|
  {
    forall j :: n <= j < |connections| ==> (accepted[j] <==> connections[j].key == connections[n].key)
  }

  lemma FirstPins(rest: seq<bool>, connections: seq<Connection>)
    requires connections != [] && |rest| == |connections| - 1
    requires forall j :: 0 <= j < |rest| ==> (rest[j] <==> connections[1..][j].key == connections[0].key)
    ensures FollowsKey([true] + rest, connections, 0)
  {
    assert forall j :: 0 < j < |connections| ==> connections[j] == connections[1..][j - 1];
  }

  lemma FirstFollowsPolicy(rest: seq<bool>, connections: seq<Connection>, n: nat)
    requires connections != [] && |rest| == |connections| - 1 && n <= |rest|
    requires FollowsPolicies(rest, connections[1..], n) && FollowsKey(rest, connections[1..], n)
    ensures
      var accepted := [AcceptsUnknown(connections[0].policy)] + rest;
      FollowsPolicies(accepted, connections, n + 1) && FollowsKey(accepted, connections, n + 1)
  {
    assert forall j :: 0 < j < |connections| ==> connections[j] == connections[1..][j - 1];
  }

  lemma UnknownKey(
      check: (string, Key) -> Verdict, text: string, host: string, port: nat, policy: Policy, key: Key)
    requires check(text, key) == NotRecorded && !ContainsEndpoint(text, host, port)
    ensures
      CheckServerKey(check, text, host, port, policy, key)
      == Checked(AcceptsUnknown(policy), if Learns(policy) then Learn(text, host, port, key) else text)
  {
  }

  // ----- What is written for an endpoint -----

  /** The value of decimal digits, most significant first. */
  function Number(digits: string): nat {
    if digits == "" then 0
    else
      var last := digits[|digits| - 1];
      10 * Number(digits[..|digits| - 1]) + if '0' <= last <= '9' then last as int - '0' as int else 0
  }

  lemma NumberSnoc(digits: string, d: nat)
    requires d < 10
    ensures Number(digits + ["0123456789"[d]]) == 10 * Number(digits) + d
    ensures "0123456789"[d] != '[' && "0123456789"[d] != ']'
  {
    var all := digits + ["0123456789"[d]];
    assert all[..|all| - 1] == digits && all[|all| - 1] == "0123456789"[d];
    assert "0123456789"[d] as int - '0' as int == d;
  }

  lemma {:induction false} NumberOfDigits(n: nat)
    ensures Number(Digits(n)) == n
    ensures '[' !in Digits(n) && ']' !in Digits(n)
  {
    if n < 10 {
      NumberSnoc("", n);
      assert "" + ["0123456789"[n]] == Digits(n);
    } else {
      NumberOfDigits(n / 10);
      NumberSnoc(Digits(n / 10), n % 10);
    }
  }

  /** A host without the brackets that set off a port. */
  predicate Bare(host: string) {
    PlainHost(host) && '[' !in host && ']' !in host
  }

  /** The endpoint as the file has it: the host alone on the default port, else in brackets with its port. */
  predicate Written(word: string, host: string, port: nat) {
    if port == 22 then word == host
    else
      && |host| + 3 < |word| && word[..|host| + 3] == "[" + host + "]:"
      && (forall k :: |host| + 3 <= k < |word| ==> '0' <= word[k] <= '9')
      && Number(word[|host| + 3..]) == port
  }

  lemma EndpointIsWritten(host: string, port: nat)
    ensures Written(Endpoint(host, port), host, port)
  {
    if port != 22 {
      NumberOfDigits(port);
      var e := Endpoint(host, port);
      assert e == ("[" + host + "]:") + Digits(port);
      assert e[|host| + 3..] == Digits(port);
    }
  }

  /** Only a port other than the default one brings brackets. */
  lemma WrittenStarts(word: string, host: string, port: nat)
    requires Bare(host) && Written(word, host, port)
    ensures word != "" && (word[0] == '[' <==> port != 22)
  {
    if port == 22 {
      assert host[0] in host;
    } else {
      assert word[0] == (word[..|host| + 3])[0];
    }
  }

  /** One word is written for one endpoint only. */
  lemma WrittenForOne(word: string, host: string, port: nat, host': string, port': nat)
    requires Bare(host) && Bare(host') && Written(word, host, port) && Written(word, host', port')
    ensures host == host' && port == port'
  {
    WrittenStarts(word, host, port);
    WrittenStarts(word, host', port');
    if port != 22 {
      SameBracketed(word, host, host');
    }
  }

  lemma SameBracketed(word: string, host: string, host': string)
    requires ']' !in host && ']' !in host'
    requires |host| + 3 <= |word| && word[..|host| + 3] == "[" + host + "]:"
    requires |host'| + 3 <= |word| && word[..|host'| + 3] == "[" + host' + "]:"
    ensures host == host'
  {
    Bracketed(word, host);
    Bracketed(word, host');
  }

  lemma Bracketed(word: string, host: string)
    requires ']' !in host
    requires |host| + 3 <= |word| && word[..|host| + 3] == "[" + host + "]:"
    ensures word[|host| + 1] == ']' && forall k :: 1 <= k < |host| + 1 ==> word[k] != ']'
    ensures word[1..|host| + 1] == host
  {
    var w := word[..|host| + 3];
    assert w[|host| + 1] == ']' && w[1..|host| + 1] == host;
    assert forall k :: 1 <= k < |host| + 1 ==> word[k] == w[k] == host[k - 1];
  }

  /** Learning adds one row: the endpoint as written, the key's algorithm and its data. */
  lemma LearnedRowIsWritten(text: string, host: string, port: nat, key: Key) returns (row: seq<string>)
    requires PlainHost(host) && ValidKey(key)
    ensures Table(Learn(text, host, port, key)) == Table(text) + [row]
    ensures |row| == 3 && Written(row[0], host, port) && row[1] == key.algorithm && row[2] == key.data
  {
    LearnAddsOneRow(text, host, port, key);
    EndpointIsWritten(host, port);
    row := [Endpoint(host, port), key.algorithm, key.data];
  }

  /** A learned endpoint names no other one. */
  lemma LearnedNamesNoOther(host: string, port: nat, host': string, port': nat)
    requires Bare(host) && Bare(host') && (host', port') != (host, port)
    ensures !CandidateNames(Endpoint(host, port), host', port')
    ensures Endpoint(host, port) != Endpoint(host', port')
  {
    EndpointIsWritten(host, port);
    EndpointIsWritten(host', port');
    AliasIsNotWritten(host, port, host');
    if Endpoint(host, port) == Endpoint(host', port') {
      WrittenForOne(Endpoint(host, port), host, port, host', port');
    }
  }

  lemma TwentyTwo()
    ensures Number("22") == 22
  {
    NumberSnoc("", 2);
    NumberSnoc("2", 2);
    assert "" + ["0123456789"[2]] == "2" && "2" + ["0123456789"[2]] == "22";
  }

  lemma AliasIsNotWritten(host: string, port: nat, host': string)
    requires Bare(host) && Bare(host')
    ensures Endpoint(host, port) != "[" + host' + "]:22"
  {
    EndpointIsWritten(host, port);
    var word := "[" + host' + "]:22";
    assert word[..|host'| + 3] == "[" + host' + "]:" && word[|host'| + 3..] == "22";
    TwentyTwo();
    if word == Endpoint(host, port) {
      WrittenStarts(word, host, port);
      SameBracketed(word, host, host');
    }
  }

  /** Learning a key for one endpoint leaves every other endpoint, the same host on another port included, alone. */
  lemma EndpointsDoNotMix(text: string, host: string, port: nat, key: Key, host': string, port': nat, key': Key)
    requires Bare(host) && Bare(host') && (host', port') != (host, port) && ValidKey(key)
    ensures ContainsEndpoint(Learn(text, host, port, key), host', port') <==> ContainsEndpoint(text, host', port')
    ensures Recorded(Table(Learn(text, host, port, key)), host', port', key')
      <==> Recorded(Table(text), host', port', key')
  {
    LearnAddsOneRow(text, host, port, key);
    var row := [Endpoint(host, port), key.algorithm, key.data];
    var before, after := Table(text), Table(Learn(text, host, port, key));
    EndpointIsPlain(host, port);
    LearnedNamesNoOther(host, port, host', port');
    assert Candidates(row[0]) == [Endpoint(host, port)];
    OneRowMore(before, row, host', port', key');
  }

  lemma OneRowMore(table: seq<seq<string>>, row: seq<string>, host: string, port: nat, key: Key)
    requires !RowNames(row, host, port) && !RowRecords(row, host, port, key)
    ensures Recorded(table + [row], host, port, key) <==> Recorded(table, host, port, key)
    ensures (exists i :: 0 <= i < |table + [row]| && RowNames((table + [row])[i], host, port))
      <==> (exists i :: 0 <= i < |table| && RowNames(table[i], host, port))
  {
    var all := table + [row];
    assert forall i :: 0 <= i < |table| ==> all[i] == table[i];
    if i :| 0 <= i < |table| && RowNames(table[i], host, port) {
      assert RowNames(all[i], host, port);
    }
    if i :| 0 <= i < |table| && RowRecords(table[i], host, port, key) {
      assert RowRecords(all[i], host, port, key);
    }
  }

  // ----- Reading what was written -----

  function Spaced(row: seq<string>): string {
    if row == [] then "" else if |row| == 1 then row[0] else row[0] + (" " + Spaced(row[1..]))
  }

  /** A file with one line for each row. */
  function Page(rows: seq<seq<string>>): string {
    if rows == [] then "" else Spaced(rows[0]) + ("\n" + Page(rows[1..]))
  }

  predicate Tokens(row: seq<string>) {
    forall i :: 0 <= i < |row| ==> Token(row[i])
  }

  lemma {:induction false} SpacedIsRead(row: seq<string>)
    requires Tokens(row)
    ensures Words(Spaced(row)) == row && '\n' !in Spaced(row)
    decreases |row|
  {
    if |row| == 1 {
      WordsOfToken(row[0]);
      assert Token(row[0]);
    } else if |row| > 1 {
      assert Token(row[0]);
      SpacedIsRead(row[1..]);
      WordsCons(row[0], Spaced(row[1..]));
    }
  }

  /** Any white space parts words, not only a blank. */
  lemma WordsPart(word: string, gap: char, rest: string)
    requires Token(word) && UnicodeWhitespace(gap)
    ensures Words(word + ([gap] + rest)) == [word] + Words(rest)
    ensures Words([gap] + rest) == Words(rest)
  {
    var line := word + ([gap] + rest);
    WordLengthIs(line, |word|);
    assert line[..|word|] == word && line[|word|..] == [gap] + rest;
    assert ([gap] + rest)[1..] == rest;
  }

  /** Reading a file of words gives back its words, line by line. */
  lemma {:induction false} PageIsRead(rows: seq<seq<string>>)
    requires forall i :: 0 <= i < |rows| ==> Tokens(rows[i])
    ensures Table(Page(rows)) == rows
    decreases |rows|
  {
    if rows != [] {
      assert Tokens(rows[0]);
      SpacedIsRead(rows[0]);
      PageIsRead(rows[1..]);
      TableCons(Spaced(rows[0]), Page(rows[1..]));
    }
  }

  function JoinCommas(parts: seq<string>): string
    requires parts != []
  {
    if |parts| == 1 then parts[0] else parts[0] + ("," + JoinCommas(parts[1..]))
  }

  lemma {:induction false} CandidatesOfJoin(parts: seq<string>)
    requires parts != [] && forall i :: 0 <= i < |parts| ==> ',' !in parts[i]
    ensures Candidates(JoinCommas(parts)) == parts
    decreases |parts|
  {
    var all := JoinCommas(parts);
    assert ',' !in parts[0];
    if |parts| == 1 {
      assert IndexOf(all, ',') == |all|;
    } else {
      IndexOfIs(all, ',', |parts[0]|);
      assert all[..|parts[0]|] == parts[0] && all[|parts[0]| + 1..] == JoinCommas(parts[1..]);
      CandidatesOfJoin(parts[1..]);
    }
  }

  /**
   * A line names an endpoint if its first word lists the bracketed host with
   * the port, or, on the default port, the bare host too; the other words do
   * not matter.
   */
  lemma LineNames(parts: seq<string>, rest: seq<string>, host: string, port: nat) returns (digits: string)
    requires parts != [] && forall i :: 0 <= i < |parts| ==> ',' !in parts[i]
    ensures Number(digits) == port
    ensures RowNames([JoinCommas(parts)] + rest, host, port) <==>
      "[" + host + "]:" + digits in parts || (port == 22 && host in parts)
  {
    NumberOfDigits(port);
    CandidatesOfJoin(parts);
    digits := Digits(port);
    DefaultPort();
    assert "[" + host + "]:22" == "[" + host + "]:" + "22";
    var row := [JoinCommas(parts)] + rest;
    if "[" + host + "]:" + digits in parts {
      var i :| 0 <= i < |parts| && parts[i] == "[" + host + "]:" + digits;
      assert CandidateNames(Candidates(row[0])[i], host, port);
    }
    if port == 22 && host in parts {
      var i :| 0 <= i < |parts| && parts[i] == host;
      assert CandidateNames(Candidates(row[0])[i], host, port);
    }
  }

  lemma DefaultPort()
    ensures Digits(22) == "22"
  {
    assert Digits(2) == "2";
    assert Digits(22) == Digits(2) + ["0123456789"[2]];
  }

  /** No line names an endpoint unless some line of the file does. */
  lemma PageNames(rows: seq<seq<string>>, host: string, port: nat)
    requires forall i :: 0 <= i < |rows| ==> Tokens(rows[i])
    ensures ContainsEndpoint(Page(rows), host, port) <==> exists i :: 0 <= i < |rows| && RowNames(rows[i], host, port)
  {
    PageIsRead(rows);
  }

  // ----- Why a key is trusted -----

  /**
   * A recorded key is accepted, a changed one or an unreadable file never
   * leads to acceptance, and an unknown one is accepted, or written, only by
   * the policies that say so.
   */
  lemma TrustNeedsAReason(
      check: (string, Key) -> Verdict, text: string, host: string, port: nat, policy: Policy, key: Key)
    ensures
      var r := CheckServerKey(check, text, host, port, policy, key);
      var unknown := check(text, key) == NotRecorded && !ContainsEndpoint(text, host, port);
      var learns := policy in {TrustOnFirstUse, Prompt(Some(Decision(true, true)))};
      && (check(text, key) == Matches ==> r.accepted)
      && (check(text, key) != Matches && !unknown ==> !r.accepted)
      && (unknown ==> (r.accepted <==> learns || policy in {AcceptUnknown, Prompt(Some(Decision(true, false)))}))
      && r.text == (if unknown && learns then Learn(text, host, port, key) else text)
      && (Learns(policy) <==> learns)
  {
    if policy.Prompt? && policy.verifier.Some? {
      var decision := policy.verifier.value;
      assert policy == Prompt(Some(Decision(decision.accepts, decision.stores)));
    }
  }
}
