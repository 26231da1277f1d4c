/**
 * In-place sweeps with `swap_remove`: the background reaper goes backwards,
 * the echo server's join goes forwards. Each visits every element exactly
 * once and keeps exactly the unfinished ones. The lists are sequences that
 * the methods reassign; what happened in which order is kept as a ghost list,
 * and when, by the instants of a clock.
 */
module Sweeps {
  import opened Common

  /** Removes an element by moving the last one into its place. */
  function SwapRemove<T>(s: seq<T>, i: nat): (r: seq<T>)
    requires i < |s|
    ensures |r| == |s| - 1
    ensures r[..i] == s[..i]
    ensures forall k :: 0 <= k < |r| && k != i ==> r[k] == s[k]
    ensures i < |r| ==> r[i] == s[|s| - 1]
  {
    s[i := s[|s| - 1]][..|s| - 1]
  }

  function Reversed<T>(s: seq<T>): (r: seq<T>)
    ensures |r| == |s| && forall k :: 0 <= k < |s| ==> r[k] == s[|s| - 1 - k]
  {
    if s == [] then [] else [s[|s| - 1]] + Reversed(s[..|s| - 1])
  }

  /** The elements that are chosen, or those that are not, in order. */
  ghost function Filtered<T>(s: seq<T>, chosen: set<T>, wanted: bool): (r: seq<T>)
    ensures forall i :: 0 <= i < |r| ==> (r[i] in chosen) == wanted
  {
    if s == [] then []
    else
      var rest := Filtered(s[..|s| - 1], chosen, wanted);
      if (s[|s| - 1] in chosen) == wanted then rest + [s[|s| - 1]] else rest
  }

  lemma FilteredSnoc<T>(s: seq<T>, x: T, chosen: set<T>)
    ensures Filtered(s + [x], chosen, true) == Filtered(s, chosen, true) + if x in chosen then [x] else []
    ensures Filtered(s + [x], chosen, false) == Filtered(s, chosen, false) + if x in chosen then [] else [x]
  {
    assert (s + [x])[..|s|] == s;
  }

  /** Filtering for both answers splits a list. */
  lemma {:induction false} FilteredSplits<T>(s: seq<T>, chosen: set<T>)
    ensures multiset(Filtered(s, chosen, true)) + multiset(Filtered(s, chosen, false)) == multiset(s)
  {
    if s != [] {
      assert s == s[..|s| - 1] + [s[|s| - 1]];
      FilteredSplits(s[..|s| - 1], chosen);
    }
  }

  lemma HeadOut<T>(s: seq<T>, i: nat)
    requires i < |s|
    ensures multiset(s[i..]) == multiset{s[i]} + multiset(s[i + 1..])
    ensures s[..i + 1] == s[..i] + [s[i]]
  {
    assert s[i..] == [s[i]] + s[i + 1..];
  }

  /** Removing in place leaves what lies behind the removed element, rearranged. */
  lemma SwapRemoveTail<T>(s: seq<T>, i: nat)
    requires i < |s|
    ensures multiset(SwapRemove(s, i)[i..]) == multiset(s[i + 1..])
  {
    var last := s[|s| - 1];
    if i < |s| - 1 {
      var middle := s[i + 1..|s| - 1];
      assert SwapRemove(s, i)[i..] == [last] + middle;
      assert s[i + 1..] == middle + [last];
    }
  }

  lemma NextPrefix<T>(s: seq<T>, i: nat)
    requires i < |s|
    ensures s[..i + 1] == s[..i] + [s[i]]
  {
  }

  lemma SamePrefix<T>(a: seq<T>, b: seq<T>, i: nat)
    requires i < |a| && i < |b| && a[..i + 1] == b[..i + 1]
    ensures a[..i] == b[..i] && a[i] == b[i]
  {
    assert a[..i + 1][..i] == a[..i] && b[..i + 1][..i] == b[..i];
    assert a[..i + 1][i] == a[i] && b[..i + 1][i] == b[i];
  }

  // ----- The reaper's backward pass -----

  /** A pass that has polled everything from `index` on: what is left of that has not exited. */
  ghost predicate PassedTo<T>(start: seq<T>, active: seq<T>, index: nat, polled: seq<T>, exited: set<T>) {
    && index <= |active| && index <= |start|
    && polled == Reversed(start)[..|start| - index]
    && active[..index] == start[..index]
    && multiset(active[index..]) == multiset(Filtered(polled, exited, false))
  }

  lemma PassStarts<T>(start: seq<T>, exited: set<T>)
    ensures PassedTo(start, start, |start|, [], exited)
  {
  }

  /** Polling one more. */
  lemma PassStep<T>(start: seq<T>, active: seq<T>, index: nat, polled: seq<T>, exited: set<T>)
    requires PassedTo(start, active, index + 1, polled, exited)
    ensures active[index] == start[index]
    ensures active[index] in exited ==>
      PassedTo(start, SwapRemove(active, index), index, polled + [active[index]], exited)
    ensures active[index] !in exited ==> PassedTo(start, active, index, polled + [active[index]], exited)
  {
    SamePrefix(active, start, index);
    NextPrefix(Reversed(start), |start| - index - 1);
    WhatIsLeft(active, index, polled, exited);
  }

  lemma WhatIsLeft<T>(active: seq<T>, index: nat, polled: seq<T>, exited: set<T>)
    requires index < |active|
    requires multiset(active[index + 1..]) == multiset(Filtered(polled, exited, false))
    ensures
      var left := if active[index] in exited then SwapRemove(active, index) else active;
      multiset(left[index..]) == multiset(Filtered(polled + [active[index]], exited, false))
  {
    HeadOut(active, index);
    FilteredSnoc(polled, active[index], exited);
    if active[index] in exited {
      SwapRemoveTail(active, index);
    }
  }

  lemma PassEnds<T>(start: seq<T>, active: seq<T>, polled: seq<T>, exited: set<T>)
    requires PassedTo(start, active, 0, polled, exited)
    ensures polled == Reversed(start)
    ensures multiset(active) == multiset(Filtered(polled, exited, false))
    ensures multiset(active) + multiset(Filtered(polled, exited, true)) == multiset(start)
  {
    assert active[0..] == active;
    FilteredSplits(polled, exited);
    ReversedKeepsElements(start);
  }

  lemma {:induction false} ReversedKeepsElements<T>(s: seq<T>)
    ensures multiset(Reversed(s)) == multiset(s)
  {
    if s != [] {
      ReversedKeepsElements(s[..|s| - 1]);
      assert s == s[..|s| - 1] + [s[|s| - 1]];
    }
  }

  // ----- The echo server's forward sweep -----

  type Error = nat

  /** Five milliseconds, in nanoseconds. */
  const SWEEP_INTERVAL: nat := 5_000_000

  /** The first error met in a list of join results. */
  function FirstError<T>(joined: seq<T>, result: T -> Option<Error>): Option<Error> {
    if joined == [] then None
    else if FirstError(joined[..|joined| - 1], result).Some? then FirstError(joined[..|joined| - 1], result)
    else result(joined[|joined| - 1])
  }

  lemma FirstErrorSnoc<T>(joined: seq<T>, x: T, result: T -> Option<Error>)
    ensures FirstError(joined + [x], result)
         == if FirstError(joined, result).Some? then FirstError(joined, result) else result(x)
  {
    assert (joined + [x])[..|joined|] == joined;
  }

  lemma {:induction false} FirstErrorAppend<T>(a: seq<T>, b: seq<T>, result: T -> Option<Error>)
    ensures FirstError(a + b, result)
         == if FirstError(a, result).Some? then FirstError(a, result) else FirstError(b, result)
    decreases |b|
  {
    if b == [] {
      assert a + b == a;
    } else {
      assert (a + b)[..|a + b| - 1] == a + b[..|b| - 1];
      FirstErrorAppend(a, b[..|b| - 1], result);
    }
  }

  /** The error reported is that of the first join that failed, and there is none exactly if none failed. */
  lemma {:induction false} FirstErrorMeans<T>(joined: seq<T>, result: T -> Option<Error>)
    ensures FirstError(joined, result) == None <==> forall i :: 0 <= i < |joined| ==> result(joined[i]) == None
    ensures FirstError(joined, result).Some? ==>
      exists i :: 0 <= i < |joined| && result(joined[i]) == FirstError(joined, result) &&
        forall k :: 0 <= k < i ==> result(joined[k]) == None
  {
    if joined != [] {
      var n := |joined| - 1;
      FirstErrorMeans(joined[..n], result);
      assert forall k :: 0 <= k < n ==> joined[k] == joined[..n][k];
    }
  }

  /** Visiting the connection at `index`: those before it were not finished. */
  lemma VisitStep<T>(live: seq<T>, index: nat, visited: seq<T>, finished: set<T>)
    requires index < |live| && live[..index] == Filtered(visited, finished, false)
    ensures
      var connection := live[index];
      var visited' := visited + [connection];
      var joined := Filtered(visited, finished, true);
      var tail := if connection in finished then SwapRemove(live, index)[index..] else live[index + 1..];
      && multiset(visited') + multiset(tail) == multiset(visited) + multiset(live[index..])
      && (if connection in finished then
            && Filtered(visited', finished, true) == joined + [connection]
            && SwapRemove(live, index)[..index] == Filtered(visited', finished, false)
          else
            && Filtered(visited', finished, true) == joined
            && live[..index + 1] == Filtered(visited', finished, false))
  {
    HeadOut(live, index);
    FilteredSnoc(visited, live[index], finished);
    if live[index] in finished {
      SwapRemoveTail(live, index);
    }
  }

  /** A sweep that stands before `index`: what it has visited, joined and kept, and the first error of the joins. */
  ghost predicate SweptTo<T>(
    start: seq<T>, live: seq<T>, index: nat, visited: seq<T>, error: Option<Error>,
    finished: set<T>, result: T -> Option<Error>)
  {
    && index <= |live| <= |start|
    && multiset(visited) + multiset(live[index..]) == multiset(start)
    && live[..index] == Filtered(visited, finished, false)
    && error == FirstError(Filtered(visited, finished, true), result)
  }

  lemma VisitOne<T>(
    start: seq<T>, live: seq<T>, index: nat, visited: seq<T>, error: Option<Error>,
    finished: set<T>, result: T -> Option<Error>)
    requires SweptTo(start, live, index, visited, error, finished, result) && index < |live|
    ensures live[index] in finished ==>
      SweptTo(start, SwapRemove(live, index), index, visited + [live[index]],
              if error.Some? then error else result(live[index]), finished, result)
    ensures live[index] !in finished ==>
      SweptTo(start, live, index + 1, visited + [live[index]], error, finished, result)
  {
    VisitStep(live, index, visited, finished);
    FirstErrorSnoc(Filtered(visited, finished, true), live[index], result);
  }

  lemma SweepEnds<T>(
    start: seq<T>, live: seq<T>, visited: seq<T>, error: Option<Error>,
    finished: set<T>, result: T -> Option<Error>)
    requires SweptTo(start, live, |live|, visited, error, finished, result)
    ensures multiset(visited) == multiset(start) && live == Filtered(visited, finished, false)
    ensures multiset(live) + multiset(Filtered(visited, finished, true)) == multiset(start)
  {
    assert live[..|live|] == live && live[|live|..] == [];
    FilteredSplits(visited, finished);
  }

  ghost predicate NoneIn<T>(s: seq<T>, chosen: set<T>) {
    forall k :: 0 <= k < |s| ==> s[k] !in chosen
  }

  /** The connection was seen to have finished at some instant of the drain. */
  ghost predicate FinishedWithin<T>(connection: T, from: nat, to: nat, finished: nat -> set<T>) {
    exists at: nat :: from <= at <= to && connection in finished(at)
  }

  ghost predicate AllFinishedWithin<T>(joined: seq<T>, from: nat, to: nat, finished: nat -> set<T>) {
    forall k :: 0 <= k < |joined| ==> FinishedWithin(joined[k], from, to, finished)
  }

  lemma SweepAdds<T>(joined: seq<T>, more: seq<T>, from: nat, now: nat, finished: nat -> set<T>)
    requires AllFinishedWithin(joined, from, now, finished) && from <= now
    requires joined <= more && forall k :: |joined| <= k < |more| ==> more[k] in finished(now)
    ensures AllFinishedWithin(more, from, now, finished)
  {
    assert forall k :: |joined| <= k < |more| ==> FinishedWithin(more[k], from, now, finished);
    assert forall k :: 0 <= k < |joined| ==> more[k] == joined[k];
  }

  /** At most one interval ago somebody had not finished. */
  ghost predicate WasWaitingFor<T>(all: seq<T>, now: nat, finished: nat -> set<T>) {
    exists at: nat, c :: now - 5_000_000 <= at < now && c in all && c !in finished(at)
  }

  lemma StillWaiting<T>(joined: seq<T>, live: seq<T>, all: seq<T>, at: nat, now: nat, finished: nat -> set<T>)
    requires multiset(joined) + multiset(live) == multiset(all)
    requires live != [] && NoneIn(live, finished(at)) && at < now <= at + SWEEP_INTERVAL
    ensures WasWaitingFor(all, now, finished)
  {
    var c := live[0];
    assert c in multiset(live);
    assert c in multiset(all);
    assert c in all && c !in finished(at);
    assert now - 5_000_000 <= at;
  }

  lemma LaterIsFine<T>(joined: seq<T>, from: nat, now: nat, later: nat, finished: nat -> set<T>)
    requires AllFinishedWithin(joined, from, now, finished) && now <= later
    ensures AllFinishedWithin(joined, from, later, finished)
  {
    forall k | 0 <= k < |joined|
      ensures FinishedWithin(joined[k], from, later, finished)
    {
      assert FinishedWithin(joined[k], from, now, finished);
    }
  }

  datatype DrainResult = Joined | JoinFailed(error: Error) | DrainTimedOut

  class Connections<T(==)> {
    var live: seq<T>

    constructor (connections: seq<T>)
      ensures live == connections
    {
      live := connections;
    }

    /**
     * Looks at every connection once; finished ones are joined, the others
     * stay. The result is the first error of the joins made.
     */
    method JoinFinished(finished: set<T>, result: T -> Option<Error>)
      returns (error: Option<Error>, ghost visited: seq<T>)
      modifies this
      ensures multiset(visited) == multiset(old(live))
      ensures live == Filtered(visited, finished, false)
      ensures multiset(live) + multiset(Filtered(visited, finished, true)) == multiset(old(live))
      ensures error == FirstError(Filtered(visited, finished, true), result)
      ensures |live| <= |old(live)|
    {
      error := None;
      var index := 0;
      visited := [];
      while index < |live|
        invariant SweptTo(old(live), live, index, visited, error, finished, result)
        decreases |live| - index
      {
        var connection := live[index];
        VisitOne(old(live), live, index, visited, error, finished, result);
        visited := visited + [connection];
        if connection in finished {
          live := SwapRemove(live, index);
          if result(connection).Some? && error.None? {
            error := result(connection);
          }
        } else {
          index := index + 1;
        }
      }
      SweepEnds(old(live), live, visited, error, finished, result);
    }

    /** One sweep, its joins and its error added to those of the earlier ones. */
    method SweepOnce(finished: set<T>, result: T -> Option<Error>, firstError: Option<Error>, ghost joined: seq<T>)
      returns (firstError': Option<Error>, ghost joined': seq<T>)
      requires firstError == FirstError(joined, result)
      modifies this
      ensures firstError' == FirstError(joined', result)
      ensures multiset(joined') + multiset(live) == multiset(joined) + multiset(old(live))
      ensures joined <= joined'
      ensures forall k :: |joined| <= k < |joined'| ==> joined'[k] in finished
      ensures NoneIn(live, finished) && |live| <= |old(live)|
    {
      var error;
      ghost var visited;
      error, visited := JoinFinished(finished, result);
      ghost var now := Filtered(visited, finished, true);
      FirstErrorAppend(joined, now, result);
      joined' := joined + now;
      firstError' := if firstError.Some? then firstError else error;
    }

    /**
     * Sweeps every five milliseconds until no connection is left or the
     * deadline has passed, sweeps once more and defers the rest. `finished`
     * tells which connections have finished at an instant; only a finished
     * connection is joined.
     */
    method Drain(deadline: nat, clock: Clock, finished: nat -> set<T>, result: T -> Option<Error>)
      returns (outcome: DrainResult, ghost joined: seq<T>, deferred: seq<T>)
      modifies this, clock
      ensures live == []
      ensures multiset(joined) + multiset(deferred) == multiset(old(live))
      ensures match FirstError(joined, result)
              case Some(e) => outcome == JoinFailed(e)
              case None => outcome == if deferred == [] then Joined else DrainTimedOut
      ensures old(clock.now) <= clock.now <= Max(old(clock.now), deadline)
      ensures deferred != [] ==> clock.now >= deadline
      ensures NoneIn(deferred, finished(clock.now))
      ensures AllFinishedWithin(joined, old(clock.now), clock.now, finished)
      ensures old(clock.now) < clock.now ==>
        exists at: nat, c :: clock.now - 5_000_000 <= at < clock.now && c in old(live) && c !in finished(at)
    {
      var firstError := None;
      joined := [];
      while live != [] && clock.now < deadline
        invariant multiset(joined) + multiset(live) == multiset(old(live))
        invariant firstError == FirstError(joined, result)
        invariant old(clock.now) <= clock.now <= Max(old(clock.now), deadline)
        invariant AllFinishedWithin(joined, old(clock.now), clock.now, finished)
        invariant old(clock.now) < clock.now ==> WasWaitingFor(old(live), clock.now, finished)
        decreases deadline - clock.now
      {
        ghost var before, sweptAt := joined, clock.now;
        firstError, joined := SweepOnce(finished(clock.now), result, firstError, joined);
        SweepAdds(before, joined, old(clock.now), sweptAt, finished);
        if live != [] {
          clock.SleepFor(Min(deadline - clock.now, SWEEP_INTERVAL));
          LaterIsFine(joined, old(clock.now), sweptAt, clock.now, finished);
          StillWaiting(joined, live, old(live), sweptAt, clock.now, finished);
        } else {
          break;
        }
      }
      ghost var before := joined;
      firstError, joined := SweepOnce(finished(clock.now), result, firstError, joined);
      SweepAdds(before, joined, old(clock.now), clock.now, finished);
      deferred := live;
      live := [];
      if firstError.Some? {
        outcome := JoinFailed(firstError.value);
      } else {
        outcome := if deferred == [] then Joined else DrainTimedOut;
      }
    }
  }
}
