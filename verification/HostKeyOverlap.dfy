/**
 * Host-key checks that overlap: any number of connections to one endpoint
 * share a known_hosts file. Each looks the key up, looks for the endpoint,
 * may ask a verifier and may learn, and every one of these is a step of its
 * own.
 */
module HostKeyOverlap {
  import opened Common
  import opened KnownHosts

  datatype Pc = Fresh | Unmatched | Asking(decision: Decision) | Learning | Done(accepted: bool)

  /** `learned` lists the keys in the order in which they were written. */
  datatype State = State(text: string, learned: seq<Key>, pcs: seq<Pc>)

  /** The endpoint, the library's check and who connects. */
  datatype World = World(
    check: (string, Key) -> Verdict, host: string, port: nat, connections: seq<Connection>)

  function Start(w: World, text: string): State {
    State(text, [], seq(|w.connections|, _ => Fresh))
  }

  predicate Fits(w: World, s: State) {
    |s.pcs| == |w.connections|
  }

  function Goto(s: State, i: nat, pc: Pc): State
    requires i < |s.pcs|
  {
    s.(pcs := s.pcs[i := pc])
  }

  function LookUp(w: World, s: State, i: nat): Pc
    requires i < |w.connections|
  {
    match w.check(s.text, w.connections[i].key)
    case Matches => Done(true)
    case Changed => Done(false)
    case Unreadable => Done(false)
    case NotRecorded => Unmatched
  }

  function Decide(w: World, s: State, i: nat): Pc
    requires i < |w.connections|
  {
    if ContainsEndpoint(s.text, w.host, w.port) then Done(false)
    else
      match w.connections[i].policy
      case RejectUnknown => Done(false)
      case AcceptUnknown => Done(true)
      case TrustOnFirstUse => Learning
      case Prompt(None) => Done(false)
      case Prompt(Some(decision)) => Asking(decision)
  }

  /** One step of connection `i`; nothing when it is done. */
  function Next(w: World, s: State, i: nat): (t: State)
    requires Fits(w, s)
    ensures Fits(w, t)
  {
    if i >= |w.connections| then s
    else
      match s.pcs[i]
      case Fresh => Goto(s, i, LookUp(w, s, i))
      case Unmatched => Goto(s, i, Decide(w, s, i))
      case Asking(decision) =>
        Goto(s, i, if !decision.accepts then Done(false) else if decision.stores then Learning else Done(true))
      case Learning =>
        var key := w.connections[i].key;
        Goto(s, i, Done(true)).(text := Learn(s.text, w.host, w.port, key), learned := s.learned + [key])
      case Done(_) => s
  }

  function Run(w: World, s: State, steps: seq<nat>): (t: State)
    requires Fits(w, s)
    ensures Fits(w, t)
    decreases |steps|
  {
    if steps == [] then s else Run(w, Next(w, s, steps[0]), steps[1..])
  }

  // ----- Overtaking -----

  /** Between its check and its write. */
  predicate WillLearn(pc: Pc) {
    pc.Learning? || (pc.Asking? && pc.decision.accepts && pc.decision.stores)
  }

  /** A connection writes its key while another one is about to write a different key. */
  predicate Overtakes(w: World, s: State, i: nat)
    requires Fits(w, s)
  {
    && i < |s.pcs| && s.pcs[i].Learning?
    && exists j :: 0 <= j < |s.pcs| && IsRival(w, s, i, j)
  }

  predicate IsRival(w: World, s: State, i: nat, j: nat)
    requires Fits(w, s) && i < |s.pcs| && j < |s.pcs|
  {
    WillLearn(s.pcs[j]) && w.connections[j].key != w.connections[i].key
  }

  predicate NoOvertaking(w: World, s: State, steps: seq<nat>)
    requires Fits(w, s)
    decreases |steps|
  {
    steps == [] || (!Overtakes(w, s, steps[0]) && NoOvertaking(w, Next(w, s, steps[0]), steps[1..]))
  }

  predicate OneKey(learned: seq<Key>) {
    forall i :: 0 <= i < |learned| ==> learned[i] == learned[0]
  }

  // ----- What a schedule without overtaking keeps -----

  /** Assumptions: a documented check, a plain host, valid keys. */
  ghost predicate Assumed(w: World) {
    && Documented(w.check, w.host, w.port) && PlainHost(w.host)
    && forall i :: 0 <= i < |w.connections| ==> ValidKey(w.connections[i].key)
  }

  ghost predicate Pinned(w: World, text: string, key: Key) {
    && ContainsEndpoint(text, w.host, w.port)
    && Recorded(Table(text), w.host, w.port, key) && OnlyRecorded(text, w.host, w.port, key)
  }

  ghost predicate Inv(w: World, s: State)
    requires Fits(w, s)
  {
    && OneKey(s.learned)
    && (s.learned == [] ==> !ContainsEndpoint(s.text, w.host, w.port))
    && (s.learned != [] ==>
          && ValidKey(s.learned[0]) && Pinned(w, s.text, s.learned[0])
          && forall j :: 0 <= j < |s.pcs| && WillLearn(s.pcs[j]) ==> w.connections[j].key == s.learned[0])
  }

  /** Writing a key that is already the only one leaves it the only one. */
  lemma LearnAgain(w: World, text: string, key: Key)
    requires PlainHost(w.host) && ValidKey(key) && Pinned(w, text, key)
    ensures Pinned(w, Learn(text, w.host, w.port, key), key)
  {
    var text' := Learn(text, w.host, w.port, key);
    LearnAddsOneRow(text, w.host, w.port, key);
    LearnedEndpointIsFound(text, w.host, w.port, key);
    EndpointIsPlain(w.host, w.port);
    var table, n := Table(text'), |Table(text)|;
    var i :| 0 <= i < n && RowRecords(Table(text)[i], w.host, w.port, key);
    assert RowRecords(table[i], w.host, w.port, key);
    forall other | Recorded(table, w.host, w.port, other)
      ensures other == key
    {
      var k :| 0 <= k < |table| && RowRecords(table[k], w.host, w.port, other);
      if k < n {
        assert RowRecords(Table(text)[k], w.host, w.port, other);
        assert Recorded(Table(text), w.host, w.port, other);
      }
    }
  }

  lemma FirstLearn(w: World, text: string, key: Key)
    requires PlainHost(w.host) && ValidKey(key) && !ContainsEndpoint(text, w.host, w.port)
    ensures Pinned(w, Learn(text, w.host, w.port, key), key)
  {
    LearnedIsTheOnlyKey(text, w.host, w.port, key);
    LearnedEndpointIsFound(text, w.host, w.port, key);
  }

  lemma StepKeepsInv(w: World, s: State, i: nat)
    requires Assumed(w) && Fits(w, s) && Inv(w, s) && !Overtakes(w, s, i)
    ensures Inv(w, Next(w, s, i))
  {
    if i < |s.pcs| && s.pcs[i].Learning? {
      LearnKeepsInv(w, s, i);
    } else if i < |s.pcs| {
      LookKeepsInv(w, s, i);
    }
  }

  /** With a key in the file nobody who is not yet about to write gets there. */
  lemma NobodyJoins(w: World, s: State, i: nat)
    requires Fits(w, s) && i < |s.pcs| && ContainsEndpoint(s.text, w.host, w.port) && !s.pcs[i].Learning?
    ensures WillLearn(Next(w, s, i).pcs[i]) ==> WillLearn(s.pcs[i])
  {
  }

  lemma LookKeepsInv(w: World, s: State, i: nat)
    requires Fits(w, s) && Inv(w, s) && i < |s.pcs| && !s.pcs[i].Learning?
    ensures Inv(w, Next(w, s, i))
  {
    var t := Next(w, s, i);
    assert t.text == s.text && t.learned == s.learned;
    if s.learned != [] {
      NobodyJoins(w, s, i);
      forall j | 0 <= j < |t.pcs| && WillLearn(t.pcs[j])
        ensures w.connections[j].key == s.learned[0]
      {
        assert WillLearn(s.pcs[j]);
      }
    }
  }

  lemma LearnKeepsInv(w: World, s: State, i: nat)
    requires Assumed(w) && Fits(w, s) && Inv(w, s) && !Overtakes(w, s, i)
    requires i < |s.pcs| && s.pcs[i].Learning?
    ensures Inv(w, Next(w, s, i))
  {
    var key := w.connections[i].key;
    var t := Next(w, s, i);
    if s.learned == [] {
      FirstLearn(w, s.text, key);
    } else {
      assert WillLearn(s.pcs[i]);
      LearnAgain(w, s.text, key);
    }
    assert t.learned[0] == key;
    forall j | 0 <= j < |t.pcs| && WillLearn(t.pcs[j])
      ensures w.connections[j].key == key
    {
      assert j != i && t.pcs[j] == s.pcs[j] && !IsRival(w, s, i, j);
    }
  }

  lemma {:induction false} RunKeepsInv(w: World, s: State, steps: seq<nat>)
    requires Assumed(w) && Fits(w, s) && Inv(w, s) && NoOvertaking(w, s, steps)
    ensures Inv(w, Run(w, s, steps))
    decreases |steps|
  {
    if steps != [] {
      StepKeepsInv(w, s, steps[0]);
      RunKeepsInv(w, Next(w, s, steps[0]), steps[1..]);
    }
  }

  /** A connection that looks up after a key was learned is accepted exactly with that key, and learns nothing. */
  lemma CheckedAfterLearning(w: World, s: State, i: nat)
    requires Assumed(w) && Fits(w, s) && Inv(w, s) && s.learned != []
    requires i < |s.pcs| && s.pcs[i] == Fresh
    ensures
      var t := Next(w, Next(w, s, i), i);
      t.pcs[i] == Done(w.connections[i].key == s.learned[0]) && t.text == s.text && t.learned == s.learned
  {
    var key := w.connections[i].key;
    assert w.check(s.text, key) == Matches ==> Recorded(Table(s.text), w.host, w.port, key);
  }

  // ----- Overtaking makes two keys possible -----

  lemma {:induction false} RunAppend(w: World, s: State, xs: seq<nat>, ys: seq<nat>)
    requires Fits(w, s)
    ensures Run(w, s, xs + ys) == Run(w, Run(w, s, xs), ys)
    decreases |xs|
  {
    if xs == [] {
      assert xs + ys == ys;
    } else {
      assert (xs + ys)[0] == xs[0] && (xs + ys)[1..] == xs[1..] + ys;
      RunAppend(w, Next(w, s, xs[0]), xs[1..], ys);
    }
  }

  lemma RunOne(w: World, s: State, i: nat)
    requires Fits(w, s)
    ensures Run(w, s, [i]) == Next(w, s, i)
  {
    assert [i][1..] == [];
  }

  /** After an overtaking write the rival can still write its own key. */
  lemma OvertakenStillLearns(w: World, s: State, i: nat) returns (more: seq<nat>)
    requires Fits(w, s) && Overtakes(w, s, i)
    ensures !OneKey(Run(w, Next(w, s, i), more).learned)
  {
    var j :| 0 <= j < |s.pcs| && IsRival(w, s, i, j);
    var t := Next(w, s, i);
    assert t.pcs[j] == s.pcs[j];
    more := [j];
    RunOne(w, t, j);
    var u := Next(w, t, j);
    if s.pcs[j].Asking? {
      RunOne(w, u, j);
      RunAppend(w, t, [j], [j]);
      more := [j] + [j];
      u := Next(w, u, j);
    }
    assert u.learned == s.learned + [w.connections[i].key] + [w.connections[j].key];
    var n := |s.learned|;
    assert u.learned[n] != u.learned[n + 1];
  }

  /** The schedule followed up to its step `k`, then `more` instead: two different keys are learned. */
  predicate TwoKeysAfter(w: World, s: State, steps: seq<nat>, k: nat, more: seq<nat>)
    requires Fits(w, s)
  {
    k < |steps| && !OneKey(Run(w, s, steps[..k + 1] + more).learned)
  }

  /**
   * For any connections under any policies and any schedule, to an endpoint
   * that the file does not name: as long as no write overtakes a rival at
   * most one key is learned and, once learned, it is the only one recorded;
   * and from the first write that does, two different keys can be learned.
   */
  lemma OneKeyUnlessOvertaken(w: World, text: string, steps: seq<nat>)
    requires Assumed(w) && !ContainsEndpoint(text, w.host, w.port)
    ensures
      var s := Run(w, Start(w, text), steps);
      NoOvertaking(w, Start(w, text), steps) ==>
        OneKey(s.learned) && (s.learned != [] ==> Pinned(w, s.text, s.learned[0]))
    ensures !NoOvertaking(w, Start(w, text), steps) ==>
      exists k, more :: TwoKeysAfter(w, Start(w, text), steps, k, more)
  {
    if NoOvertaking(w, Start(w, text), steps) {
      RunKeepsInv(w, Start(w, text), steps);
    } else {
      var k, more := TwoKeysFrom(w, Start(w, text), steps);
    }
  }

  lemma {:induction false} TwoKeysFrom(w: World, s: State, steps: seq<nat>) returns (k: nat, more: seq<nat>)
    requires Fits(w, s) && !NoOvertaking(w, s, steps)
    ensures TwoKeysAfter(w, s, steps, k, more)
    decreases |steps|
  {
    if Overtakes(w, s, steps[0]) {
      k := 0;
      more := OvertakenStillLearns(w, s, steps[0]);
      RunOne(w, s, steps[0]);
      RunAppend(w, s, [steps[0]], more);
      assert steps[..1] == [steps[0]];
    } else {
      k, more := TwoKeysFrom(w, Next(w, s, steps[0]), steps[1..]);
      var all := steps[..k + 2] + more;
      assert all[1..] == steps[1..][..k + 1] + more;
      k := k + 1;
    }
  }

  // ----- What can be checked before anybody connects -----

  /** All connections whose policy can write carry the same key. */
  predicate LearnersAgree(w: World) {
    forall i, j :: 0 <= i < |w.connections| && 0 <= j < |w.connections| ==> AgreeIfBothLearn(w, i, j)
  }

  predicate AgreeIfBothLearn(w: World, i: nat, j: nat)
    requires i < |w.connections| && j < |w.connections|
  {
    Learns(w.connections[i].policy) && Learns(w.connections[j].policy) ==> w.connections[i].key == w.connections[j].key
  }

  ghost predicate OneKeyUnderEverySchedule(w: World, text: string) {
    forall steps :: OneKey(Run(w, Start(w, text), steps).learned)
  }

  /** Who is about to write may, and who is being asked is asked for the decision of its policy. */
  predicate ComesFromPolicy(w: World, s: State)
    requires Fits(w, s)
  {
    && (forall i :: 0 <= i < |s.pcs| && WillLearn(s.pcs[i]) ==> Learns(w.connections[i].policy))
    && forall i :: 0 <= i < |s.pcs| && s.pcs[i].Asking? ==>
         w.connections[i].policy == Prompt(Some(s.pcs[i].decision))
  }

  lemma {:induction false} NobodyIsOvertaken(w: World, s: State, steps: seq<nat>)
    requires Fits(w, s) && LearnersAgree(w) && ComesFromPolicy(w, s)
    ensures NoOvertaking(w, s, steps)
    decreases |steps|
  {
    if steps != [] {
      forall j | steps[0] < |s.pcs| && s.pcs[steps[0]].Learning? && 0 <= j < |s.pcs|
        ensures !IsRival(w, s, steps[0], j)
      {
        assert AgreeIfBothLearn(w, steps[0], j);
      }
      NobodyIsOvertaken(w, Next(w, s, steps[0]), steps[1..]);
    }
  }

  /** Alone, a connection that learns gets as far as its write. */
  lemma GetsReady(w: World, s: State, i: nat) returns (steps: seq<nat>)
    requires Assumed(w) && Fits(w, s) && i < |s.pcs| && s.pcs[i] == Fresh
    requires !ContainsEndpoint(s.text, w.host, w.port) && Learns(w.connections[i].policy)
    ensures Run(w, s, steps) == Goto(s, i, Learning)
  {
    BothLook(w, s, i);
    steps := [i, i];
    var policy := w.connections[i].policy;
    if policy.Prompt? {
      var asking := Asking(policy.verifier.value);
      RunOne(w, Goto(s, i, asking), i);
      RunAppend(w, s, [i, i], [i]);
      assert s.pcs[i := asking][i := Learning] == s.pcs[i := Learning];
      steps := [i, i] + [i];
    }
  }

  lemma LearnersCanDisagree(w: World, text: string, i: nat, j: nat) returns (steps: seq<nat>)
    requires Assumed(w) && !ContainsEndpoint(text, w.host, w.port)
    requires i < |w.connections| && j < |w.connections| && !AgreeIfBothLearn(w, i, j)
    ensures !OneKey(Run(w, Start(w, text), steps).learned)
  {
    var s0 := Start(w, text);
    var first := GetsReady(w, s0, i);
    var s1 := Run(w, s0, first);
    var second := GetsReady(w, s1, j);
    var s2 := Run(w, s1, second);
    assert s2.pcs[i] == Learning && IsRival(w, s2, i, j);
    var more := OvertakenStillLearns(w, s2, i);
    RunOne(w, s2, i);
    RunAppend(w, s2, [i], more);
    RunAppend(w, s1, second, [i] + more);
    RunAppend(w, s0, first, second + ([i] + more));
    steps := first + (second + ([i] + more));
  }

  /** One key is learned under every schedule if and only if all that can learn carry the same key. */
  lemma OneKeyExactlyWhenLearnersAgree(w: World, text: string)
    requires Assumed(w) && !ContainsEndpoint(text, w.host, w.port)
    ensures OneKeyUnderEverySchedule(w, text) <==> LearnersAgree(w)
  {
    if LearnersAgree(w) {
      forall steps
        ensures OneKey(Run(w, Start(w, text), steps).learned)
      {
        NobodyIsOvertaken(w, Start(w, text), steps);
        OneKeyUnlessOvertaken(w, text, steps);
      }
    } else {
      var i: nat, j: nat :| i < |w.connections| && j < |w.connections| && !AgreeIfBothLearn(w, i, j);
      var steps := LearnersCanDisagree(w, text, i, j);
      assert !OneKey(Run(w, Start(w, text), steps).learned);
    }
  }

  /** The smallest race: two first uses that both look before either writes. */
  lemma TwoFirstUsesRace(w: World, text: string)
    requires Assumed(w) && !ContainsEndpoint(text, w.host, w.port)
    requires |w.connections| == 2
    requires forall i :: 0 <= i < 2 ==> w.connections[i].policy == TrustOnFirstUse
    ensures
      var s := Run(w, Start(w, text), [0, 0, 1, 1, 0, 1]);
      && s.learned == [w.connections[0].key, w.connections[1].key]
      && s.pcs == [Done(true), Done(true)]
  {
    var s := Start(w, text);
    assert [0, 0, 1, 1, 0, 1] == [0, 0] + ([1, 1] + ([0] + [1]));
    RunAppend(w, s, [0, 0], [1, 1] + ([0] + [1]));
    BothLook(w, s, 0);
    var s1 := Run(w, s, [0, 0]);
    RunAppend(w, s1, [1, 1], [0] + [1]);
    BothLook(w, s1, 1);
    var s2 := Run(w, s1, [1, 1]);
    BothWrite(w, s2);
  }

  lemma BothWrite(w: World, s: State)
    requires Fits(w, s) && s.pcs == [Learning, Learning] && s.learned == []
    ensures
      var t := Run(w, s, [0] + [1]);
      && t.learned == [w.connections[0].key, w.connections[1].key]
      && t.pcs == [Done(true), Done(true)]
  {
    RunAppend(w, s, [0], [1]);
    RunOne(w, s, 0);
    RunOne(w, Next(w, s, 0), 1);
  }

  lemma BothLook(w: World, s: State, i: nat)
    requires Fits(w, s) && i < |s.pcs| && s.pcs[i] == Fresh
    requires Documented(w.check, w.host, w.port) && !ContainsEndpoint(s.text, w.host, w.port)
    requires Learns(w.connections[i].policy)
    ensures
      var policy := w.connections[i].policy;
      Run(w, s, [i, i]) == Goto(s, i, if policy.Prompt? then Asking(policy.verifier.value) else Learning)
  {
    assert [i, i] == [i] + [i];
    RunAppend(w, s, [i], [i]);
    RunOne(w, s, i);
    RunOne(w, Next(w, s, i), i);
    var pc := Decide(w, s, i);
    assert s.pcs[i := Unmatched][i := pc] == s.pcs[i := pc];
  }

  // ----- One connection at a time -----

  /** A connection that runs alone does what the sequential check does. */
  lemma AloneIsSequential(w: World, s: State, i: nat)
    requires Fits(w, s) && i < |s.pcs| && s.pcs[i] == Fresh
    ensures
      var r := CheckServerKey(
        w.check, s.text, w.host, w.port, w.connections[i].policy, w.connections[i].key);
      var t := Next(w, Next(w, Next(w, Next(w, s, i), i), i), i);
      t.text == r.text && t.pcs[i] == Done(r.accepted)
  {
    var s1 := Next(w, s, i);
    var s2 := Next(w, s1, i);
    var s3 := Next(w, s2, i);
    assert s1.text == s.text && s2.text == s.text;
  }
}
