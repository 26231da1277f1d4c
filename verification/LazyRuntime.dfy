/**
 * Double-checked construction of the shared runtime, as a protocol of any
 * number of threads over a once-cell and a mutex that a panic poisons. Each
 * look at the cell, each use of the mutex and the construction itself are
 * steps of their own, and the scheduler and the outcome of a construction are
 * arbitrary.
 */
module LazyRuntime {
  import opened Common

  type Runtime = nat

  datatype Answer = Ready(runtime: Runtime) | LockPoisoned | BuildFailed | InitializedConcurrently

  datatype Pc = FastPath | Locking | Recheck | Building | Installing(runtime: Runtime) | Done(answer: Answer) | Panicked

  /** `built` counts successful constructions; it also numbers the runtimes. */
  datatype State = State(
    slot: Option<Runtime>, holder: Option<nat>, poisoned: bool, built: nat, threads: map<nat, Pc>)

  datatype BuildOutcome = Built | Failed | Panics

  predicate Enabled(s: State, id: nat) {
    && id in s.threads
    && !s.threads[id].Done? && !s.threads[id].Panicked?
    && (s.threads[id].Locking? ==> s.holder.None?)
  }

  function Goto(s: State, id: nat, pc: Pc): State {
    s.(threads := s.threads[id := pc])
  }

  function Leave(s: State, id: nat, pc: Pc): State {
    Goto(s, id, pc).(holder := None)
  }

  /** One atomic step of a thread; `outcome` is used only while it builds. */
  function Step(s: State, id: nat, outcome: BuildOutcome): State
    requires Enabled(s, id)
  {
    match s.threads[id]
    case FastPath =>
      if s.slot.Some? then Goto(s, id, Done(Ready(s.slot.value))) else Goto(s, id, Locking)
    case Locking =>
      if s.poisoned then Goto(s, id, Done(LockPoisoned)) else Goto(s, id, Recheck).(holder := Some(id))
    case Recheck =>
      if s.slot.Some? then Leave(s, id, Done(Ready(s.slot.value))) else Goto(s, id, Building)
    case Building =>
      (match outcome
       case Built => Goto(s, id, Installing(s.built)).(built := s.built + 1)
       case Failed => Leave(s, id, Done(BuildFailed))
       case Panics => Leave(s, id, Panicked).(poisoned := true))
    case Installing(runtime) =>
      if s.slot.Some? then Leave(s, id, Done(InitializedConcurrently))
      else Leave(s, id, Done(Ready(runtime))).(slot := Some(runtime))
    case _ => s
  }

  datatype Move = Move(id: nat, outcome: BuildOutcome)

  function Run(s: State, moves: seq<Move>): State
    decreases |moves|
  {
    if moves == [] then s
    else
      Run(if Enabled(s, moves[0].id) then Step(s, moves[0].id, moves[0].outcome) else s, moves[1..])
  }

  predicate Inside(pc: Pc) {
    pc.Recheck? || pc.Building? || pc.Installing?
  }

  ghost predicate LockInv(s: State) {
    && (forall id :: id in s.threads ==> (Inside(s.threads[id]) <==> s.holder == Some(id)))
    && (s.holder.Some? ==> s.holder.value in s.threads)
  }

  ghost predicate SlotInv(s: State) {
    && (s.slot.Some? ==> s.slot.value == 0)
    && s.built == (if s.slot.Some? || Installs(s) then 1 else 0)
    && forall id :: id in s.threads ==> ThreadInv(s, s.threads[id])
  }

  /** While a thread builds or installs there is no runtime; every answer is true. */
  predicate ThreadInv(s: State, pc: Pc) {
    match pc
    case Building => s.slot.None?
    case Installing(runtime) => s.slot.None? && runtime == 0
    case Done(Ready(runtime)) => s.slot == Some(runtime)
    case Done(LockPoisoned) => s.poisoned
    case Done(InitializedConcurrently) => false
    case _ => true
  }

  ghost predicate Inv(s: State) {
    LockInv(s) && SlotInv(s)
  }

  predicate Installs(s: State) {
    && s.holder.Some? && s.holder.value in s.threads
    && s.threads[s.holder.value].Installing?
  }

  predicate Succeeded(s: State, id: nat) {
    id in s.threads && s.threads[id].Done? && s.threads[id].answer.Ready?
  }

  ghost predicate Initial(s: State) {
    && s == State(None, None, false, 0, s.threads)
    && forall id :: id in s.threads ==> s.threads[id] == FastPath
  }

  lemma StepKeepsInv(s: State, id: nat, outcome: BuildOutcome)
    requires Inv(s) && Enabled(s, id)
    ensures Inv(Step(s, id, outcome))
    ensures s.slot.Some? ==> Step(s, id, outcome).slot == s.slot
  {
    StepKeepsLock(s, id, outcome);
    StepKeepsSlot(s, id, outcome);
  }

  lemma StepKeepsLock(s: State, id: nat, outcome: BuildOutcome)
    requires LockInv(s) && Enabled(s, id)
    ensures LockInv(Step(s, id, outcome))
  {
  }

  lemma StepKeepsSlot(s: State, id: nat, outcome: BuildOutcome)
    requires Inv(s) && Enabled(s, id)
    ensures SlotInv(Step(s, id, outcome))
    ensures s.slot.Some? ==> Step(s, id, outcome).slot == s.slot
  {
    var t := Step(s, id, outcome);
    forall j | j in t.threads
      ensures ThreadInv(t, t.threads[j])
    {
      if j != id {
        assert ThreadInv(s, s.threads[j]);
      }
    }
  }

  lemma {:induction false} RunKeepsInv(s: State, moves: seq<Move>)
    requires Inv(s)
    ensures Inv(Run(s, moves))
    ensures s.slot.Some? ==> Run(s, moves).slot == s.slot
    decreases |moves|
  {
    if moves != [] {
      if Enabled(s, moves[0].id) {
        StepKeepsInv(s, moves[0].id, moves[0].outcome);
        RunKeepsInv(Step(s, moves[0].id, moves[0].outcome), moves[1..]);
      } else {
        RunKeepsInv(s, moves[1..]);
      }
    }
  }

  /**
   * For any number of threads and any interleaving: at most one runtime is
   * ever built, every successful caller gets that one, and no caller is told
   * that another one was faster.
   */
  lemma OneRuntimeForEverybody(s: State, moves: seq<Move>)
    requires Initial(s)
    ensures
      var r := Run(s, moves);
      && r.built <= 1
      && (forall id :: id in r.threads ==> r.threads[id] != Done(InitializedConcurrently))
      && (forall a, b :: Succeeded(r, a) && Succeeded(r, b) ==>
            r.threads[a].answer == r.threads[b].answer && r.built == 1)
  {
    RunKeepsInv(s, moves);
  }

  /** The lock is always released: whoever waits for it can go on once its holder has moved. */
  lemma NobodyIsStuck(s: State, id: nat)
    requires Inv(s) && id in s.threads && !s.threads[id].Done? && !s.threads[id].Panicked?
    ensures Enabled(s, id) || (s.holder.Some? && Enabled(s, s.holder.value))
  {
    if !Enabled(s, id) {
      assert Inside(s.threads[s.holder.value]);
    }
  }

  // ----- What one caller gets -----

  function Alone(s: State, id: nat, outcome: BuildOutcome, count: nat): State
    decreases count
  {
    if count == 0 || !Enabled(s, id) then s else Alone(Step(s, id, outcome), id, outcome, count - 1)
  }

  /** What becomes of a caller that nobody interrupts. */
  function Answered(s: State, outcome: BuildOutcome): Pc {
    if s.slot.Some? then Done(Ready(s.slot.value))
    else if s.poisoned then Done(LockPoisoned)
    else
      match outcome
      case Built => Done(Ready(s.built))
      case Failed => Done(BuildFailed)
      case Panics => Panicked
  }

  /** A new runtime is installed; a failed construction leaves no trace; a panic leaves the lock poisoned. */
  function After(s: State, id: nat, outcome: BuildOutcome): State {
    var t := s.(threads := s.threads[id := Answered(s, outcome)]);
    if s.slot.Some? || s.poisoned then t
    else
      match outcome
      case Built => t.(slot := Some(s.built), built := s.built + 1)
      case Failed => t
      case Panics => t.(poisoned := true)
  }

  lemma CallerAlone(s: State, id: nat, outcome: BuildOutcome)
    requires s.holder.None? && id in s.threads && s.threads[id] == FastPath
    ensures Alone(s, id, outcome, 5) == After(s, id, outcome)
  {
    var s1 := Step(s, id, outcome);
    if s.slot.Some? {
      assert Alone(s, id, outcome, 5) == Alone(s1, id, outcome, 4) == s1;
    } else {
      var s2 := Step(s1, id, outcome);
      assert Alone(s, id, outcome, 5) == Alone(s2, id, outcome, 3);
      if s.poisoned {
        assert s2.threads == s.threads[id := Done(LockPoisoned)];
      } else {
        BuilderAlone(s, s2, id, outcome);
      }
    }
  }

  lemma BuilderAlone(s: State, locked: State, id: nat, outcome: BuildOutcome)
    requires s.slot.None? && !s.poisoned && s.holder.None? && id in s.threads
    requires locked == s.(holder := Some(id), threads := s.threads[id := Locking][id := Recheck])
    ensures Alone(locked, id, outcome, 3) == After(s, id, outcome)
  {
    var s1 := Step(locked, id, outcome);
    var s2 := Step(s1, id, outcome);
    assert Alone(locked, id, outcome, 3) == Alone(s2, id, outcome, 1);
    if outcome == Built {
      var s3 := Step(s2, id, outcome);
      assert Alone(s2, id, outcome, 1) == s3;
      assert s3.threads == s.threads[id := Done(Ready(s.built))];
    } else {
      assert s2.threads == s.threads[id := Answered(s, outcome)];
    }
  }

  // ----- Panics -----

  ghost predicate SomebodyPanicked(s: State) {
    exists id :: id in s.threads && s.threads[id].Panicked?
  }

  ghost predicate PoisonInv(s: State) {
    && (s.poisoned <==> SomebodyPanicked(s))
    && (s.poisoned ==> s.holder.None? && s.slot.None? && s.built == 0)
  }

  lemma StepKeepsPoison(s: State, id: nat, outcome: BuildOutcome)
    requires Inv(s) && PoisonInv(s) && Enabled(s, id)
    ensures PoisonInv(Step(s, id, outcome))
  {
    var t := Step(s, id, outcome);
    assert ThreadInv(s, s.threads[id]);
    if t.threads[id].Panicked? {
      assert SomebodyPanicked(t);
    } else if SomebodyPanicked(s) {
      var p :| p in s.threads && s.threads[p].Panicked?;
      assert t.threads[p] == s.threads[p];
    }
  }

  lemma {:induction false} RunKeepsPoison(s: State, moves: seq<Move>)
    requires Inv(s) && PoisonInv(s)
    ensures PoisonInv(Run(s, moves))
    decreases |moves|
  {
    if moves != [] {
      if Enabled(s, moves[0].id) {
        StepKeepsInv(s, moves[0].id, moves[0].outcome);
        StepKeepsPoison(s, moves[0].id, moves[0].outcome);
        RunKeepsPoison(Step(s, moves[0].id, moves[0].outcome), moves[1..]);
      } else {
        RunKeepsPoison(s, moves[1..]);
      }
    }
  }

  /**
   * In every run a caller is told of a poisoned lock only when the
   * construction of another has panicked; from then on there is no runtime,
   * none is built and nobody is served.
   */
  lemma PanicIsTheEnd(s: State, moves: seq<Move>)
    requires Initial(s)
    ensures
      var r := Run(s, moves);
      && (forall id :: id in r.threads && r.threads[id] == Done(LockPoisoned) ==> SomebodyPanicked(r))
      && (SomebodyPanicked(r) ==>
            && r.slot.None? && r.built == 0
            && forall id :: id in r.threads ==>
                 !Succeeded(r, id) && !r.threads[id].Building? && !r.threads[id].Installing?)
  {
    RunKeepsInv(s, moves);
    RunKeepsPoison(s, moves);
    var r := Run(s, moves);
    assert forall id :: id in r.threads ==> ThreadInv(r, r.threads[id]);
  }

  /** Only an own construction that failed is reported as one, and only an own panic ends a caller. */
  lemma OnlyAConstructionFails(s: State, id: nat, outcome: BuildOutcome)
    requires Enabled(s, id)
    ensures Step(s, id, outcome).threads[id] == Done(BuildFailed) <==> s.threads[id] == Building && outcome == Failed
    ensures Step(s, id, outcome).threads[id] == Panicked <==> s.threads[id] == Building && outcome == Panics
  {
  }
}
