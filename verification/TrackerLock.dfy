/**
 * Spawning and shutting down at once: the tracker's mutex, its closed flag,
 * its list of tasks and the atomic count, with any number of threads. Taking
 * the lock, every access under it and every change of the count is a step of
 * its own, and a task may end at any time after it was started.
 */
module TrackerLock {
  import opened Common

  /** A thread spawns one task, which has the number of the thread, or shuts the tracker down. */
  datatype Pc =
    | WantSpawn
    | CheckClosed
    | CountUp
    | StartTask
    | PushTask
    | Refused
    | Spawned
    | WantClose
    | SetClosed
    | TakeTasks
    | Closed

  /** `running` says of every task that was started whether it still runs. */
  datatype State = State(
    holder: Option<nat>, closed: bool, tasks: seq<nat>, taken: seq<nat>, active: nat,
    running: map<nat, bool>, threads: map<nat, Pc>)

  datatype Step = Thread(id: nat) | TaskEnds(task: nat)

  /** Under the lock. */
  predicate Inside(pc: Pc) {
    pc.CheckClosed? || pc.CountUp? || pc.StartTask? || pc.PushTask? || pc.SetClosed? || pc.TakeTasks?
  }

  predicate Finished(pc: Pc) {
    pc.Refused? || pc.Spawned? || pc.Closed?
  }

  predicate Enabled(s: State, step: Step) {
    match step
    case TaskEnds(task) => task in s.running && s.running[task]
    case Thread(id) =>
      && id in s.threads && !Finished(s.threads[id])
      && (s.threads[id].WantSpawn? || s.threads[id].WantClose? ==> s.holder.None?)
  }

  function Goto(s: State, id: nat, pc: Pc): State {
    s.(threads := s.threads[id := pc])
  }

  function Enter(s: State, id: nat, pc: Pc): State {
    Goto(s, id, pc).(holder := Some(id))
  }

  function Leave(s: State, id: nat, pc: Pc): State {
    Goto(s, id, pc).(holder := None)
  }

  /** Where a decrement of zero would wrap round, the model stays at zero; that it never happens is proved. */
  function Next(s: State, step: Step): State
    requires Enabled(s, step)
  {
    match step
    case TaskEnds(task) => s.(running := s.running[task := false], active := Max(0, s.active - 1))
    case Thread(id) =>
      match s.threads[id]
      case WantSpawn => Enter(s, id, CheckClosed)
      case CheckClosed => if s.closed then Leave(s, id, Refused) else Goto(s, id, CountUp)
      case CountUp => Goto(s, id, StartTask).(active := s.active + 1)
      case StartTask => Goto(s, id, PushTask).(running := s.running[id := true])
      case PushTask => Leave(s, id, Spawned).(tasks := s.tasks + [id])
      case WantClose => Enter(s, id, SetClosed)
      case SetClosed => Goto(s, id, TakeTasks).(closed := true)
      case TakeTasks => Leave(s, id, Closed).(taken := s.taken + s.tasks, tasks := [])
      case _ => s
  }

  function Run(s: State, steps: seq<Step>): State
    decreases |steps|
  {
    if steps == [] then s
    else Run(if Enabled(s, steps[0]) then Next(s, steps[0]) else s, steps[1..])
  }

  ghost predicate Initial(s: State) {
    && s == State(None, false, [], [], 0, map[], s.threads)
    && forall id :: id in s.threads ==> s.threads[id] == WantSpawn || s.threads[id] == WantClose
  }

  // ----- The invariant -----

  ghost function Unfinished(running: map<nat, bool>): set<nat> {
    set task | task in running && running[task]
  }

  /** The task of a thread has been counted but not started. */
  predicate Counted(s: State) {
    s.holder.Some? && s.holder.value in s.threads && s.threads[s.holder.value].StartTask?
  }

  ghost predicate LockInv(s: State) {
    && (forall id :: id in s.threads ==> (Inside(s.threads[id]) <==> s.holder == Some(id)))
    && (s.holder.Some? ==> s.holder.value in s.threads)
  }

  ghost predicate ClosedInv(s: State) {
    forall id :: id in s.threads ==>
      && (Spawning(s.threads[id]) ==> !s.closed)
      && (HasClosed(s.threads[id]) ==> s.closed)
      && (s.threads[id].Closed? ==> s.tasks == [])
      && (s.threads[id].Refused? ==> s.closed)
  }

  ghost predicate ListInv(s: State) {
    && Distinct(s.taken + s.tasks)
    && (forall id :: id in s.threads && s.threads[id].PushTask? ==> id in s.running)
    && (forall id :: id in s.taken + s.tasks ==> id in s.threads && s.threads[id].Spawned? && id in s.running)
    && (forall id :: id in s.running ==> id in s.threads && (s.threads[id].PushTask? || id in s.taken + s.tasks))
  }

  ghost predicate CountInv(s: State) {
    s.active == |Unfinished(s.running)| + if Counted(s) then 1 else 0
  }

  ghost predicate Inv(s: State) {
    LockInv(s) && ClosedInv(s) && ListInv(s) && CountInv(s)
  }

  lemma InitialInv(s: State)
    requires Initial(s)
    ensures Inv(s)
  {
    assert Unfinished(s.running) == {};
  }

  lemma StepKeepsLock(s: State, step: Step)
    requires Inv(s) && Enabled(s, step)
    ensures LockInv(Next(s, step))
  {
  }

  predicate Spawning(pc: Pc) {
    pc.CountUp? || pc.StartTask? || pc.PushTask?
  }

  predicate HasClosed(pc: Pc) {
    pc.TakeTasks? || pc.Closed?
  }

  lemma StepKeepsClosed(s: State, step: Step)
    requires Inv(s) && Enabled(s, step)
    ensures ClosedInv(Next(s, step))
  {
    if step.Thread? {
      ThreadKeepsClosed(s, step.id);
    }
  }

  lemma ThreadKeepsClosed(s: State, id: nat)
    requires LockInv(s) && ClosedInv(s) && Enabled(s, Thread(id))
    ensures ClosedInv(Next(s, Thread(id)))
  {
    var t := Next(s, Thread(id));
    forall j | j in t.threads
      ensures Spawning(t.threads[j]) ==> !t.closed
      ensures HasClosed(t.threads[j]) ==> t.closed
      ensures t.threads[j].Closed? ==> t.tasks == []
      ensures t.threads[j].Refused? ==> t.closed
    {
      if j != id {
        assert t.threads[j] == s.threads[j];
        assert Spawning(s.threads[j]) ==> Inside(s.threads[j]);
      }
    }
  }

  lemma DistinctSnoc(s: seq<nat>, x: nat)
    requires Distinct(s) && x !in s
    ensures Distinct(s + [x])
  {
  }

  lemma StepKeepsList(s: State, step: Step)
    requires Inv(s) && Enabled(s, step)
    ensures ListInv(Next(s, step))
  {
    if step.Thread? && s.threads[step.id].PushTask? {
      PushKeepsList(s, step.id);
    } else if step.Thread? && s.threads[step.id].TakeTasks? {
      TakeKeepsList(s, step.id);
    } else {
      var t := Next(s, step);
      assert t.taken == s.taken && t.tasks == s.tasks;
    }
  }

  lemma PushKeepsList(s: State, id: nat)
    requires ListInv(s) && id in s.threads && s.threads[id].PushTask? && id in s.running
    ensures ListInv(Next(s, Thread(id)))
  {
    var all := s.taken + s.tasks;
    DistinctSnoc(all, id);
    assert s.taken + (s.tasks + [id]) == all + [id];
  }

  lemma TakeKeepsList(s: State, id: nat)
    requires ListInv(s) && id in s.threads && s.threads[id].TakeTasks?
    ensures ListInv(Next(s, Thread(id)))
  {
    assert s.taken + s.tasks + [] == s.taken + s.tasks;
  }

  lemma UnfinishedAfter(running: map<nat, bool>, task: nat, on: bool)
    ensures Unfinished(running[task := on]) == if on then Unfinished(running) + {task} else Unfinished(running) - {task}
  {
  }

  lemma EndKeepsCount(s: State, task: nat)
    requires Inv(s) && Enabled(s, TaskEnds(task))
    ensures CountInv(Next(s, TaskEnds(task)))
  {
    UnfinishedAfter(s.running, task, false);
    assert task in Unfinished(s.running);
  }

  lemma StartKeepsCount(s: State, id: nat)
    requires Inv(s) && id in s.threads && s.threads[id].StartTask?
    ensures CountInv(Next(s, Thread(id)))
  {
    UnfinishedAfter(s.running, id, true);
    assert Counted(s) && id !in s.running;
  }

  lemma OtherStepsKeepCount(s: State, id: nat)
    requires LockInv(s) && CountInv(s) && Enabled(s, Thread(id)) && !s.threads[id].StartTask?
    ensures CountInv(Next(s, Thread(id)))
  {
    var t := Next(s, Thread(id));
    assert t.running == s.running;
    assert Counted(t) <==> s.threads[id].CountUp? || Counted(s);
  }

  lemma StepKeepsCount(s: State, step: Step)
    requires Inv(s) && Enabled(s, step)
    ensures CountInv(Next(s, step))
  {
    if step.TaskEnds? {
      EndKeepsCount(s, step.task);
    } else if s.threads[step.id].StartTask? {
      StartKeepsCount(s, step.id);
    } else {
      OtherStepsKeepCount(s, step.id);
    }
  }

  lemma StepKeepsInv(s: State, step: Step)
    requires Inv(s) && Enabled(s, step)
    ensures Inv(Next(s, step))
  {
    StepKeepsLock(s, step);
    StepKeepsClosed(s, step);
    StepKeepsList(s, step);
    StepKeepsCount(s, step);
  }

  lemma {:induction false} RunKeepsInv(s: State, steps: seq<Step>)
    requires Inv(s)
    ensures Inv(Run(s, steps))
    decreases |steps|
  {
    if steps != [] {
      if Enabled(s, steps[0]) {
        StepKeepsInv(s, steps[0]);
        RunKeepsInv(Next(s, steps[0]), steps[1..]);
      } else {
        RunKeepsInv(s, steps[1..]);
      }
    }
  }

  // ----- What holds of every run -----

  /**
   * The count is the number of unfinished tasks, plus one exactly while a
   * spawning thread has counted its task and not started it yet.
   */
  lemma EveryRunCounts(s: State, steps: seq<Step>)
    requires Initial(s)
    ensures
      var r := Run(s, steps);
      && r.active == |Unfinished(r.running)| + (if Counted(r) then 1 else 0)
      && (r.holder.None? ==> r.active == |Unfinished(r.running)|)
  {
    InitialInv(s);
    RunKeepsInv(s, steps);
  }

  /** A task that ends finds the count above zero, so the decrement never wraps. */
  lemma DecrementNeverWraps(s: State, steps: seq<Step>, task: nat)
    requires Initial(s) && Enabled(Run(s, steps), TaskEnds(task))
    ensures Run(s, steps).active > 0
  {
    InitialInv(s);
    RunKeepsInv(s, steps);
    assert task in Unfinished(Run(s, steps).running);
  }

  lemma ClosedStep(s: State, step: Step)
    requires Inv(s) && s.closed && Enabled(s, step)
    ensures
      var t := Next(s, step);
      t.closed && t.running.Keys == s.running.Keys && Unfinished(t.running) <= Unfinished(s.running)
  {
  }

  lemma {:induction false} ClosedRun(s: State, steps: seq<Step>)
    requires Inv(s) && s.closed
    ensures
      var r := Run(s, steps);
      r.closed && r.running.Keys == s.running.Keys && Unfinished(r.running) <= Unfinished(s.running)
    decreases |steps|
  {
    if steps != [] {
      if Enabled(s, steps[0]) {
        ClosedStep(s, steps[0]);
        StepKeepsInv(s, steps[0]);
        ClosedRun(Next(s, steps[0]), steps[1..]);
      } else {
        ClosedRun(s, steps[1..]);
      }
    }
  }

  /** Once the tracker is closed no task starts any more, in any continuation; tasks only end. */
  lemma NothingStartsAfterClosing(s: State, steps: seq<Step>, more: seq<Step>)
    requires Initial(s) && Run(s, steps).closed
    ensures
      var r, t := Run(s, steps), Run(Run(s, steps), more);
      t.closed && t.running.Keys == r.running.Keys && Unfinished(t.running) <= Unfinished(r.running)
  {
    InitialInv(s);
    RunKeepsInv(s, steps);
    ClosedRun(Run(s, steps), more);
  }

  /** When a shutdown has left the lock it, or an earlier one, owns every task that was ever started, each once. */
  lemma ShutdownTakesEveryTask(s: State, steps: seq<Step>, id: nat)
    requires Initial(s)
    requires var r := Run(s, steps); id in r.threads && r.threads[id] == Closed
    ensures
      var r := Run(s, steps);
      && r.tasks == [] && Distinct(r.taken)
      && (forall task :: task in r.running <==> task in r.taken)
  {
    InitialInv(s);
    RunKeepsInv(s, steps);
    var r := Run(s, steps);
    assert r.taken + r.tasks == r.taken;
  }

  /** The lock is always released: whoever waits for it can go on once its holder has moved. */
  lemma NobodyIsStuck(s: State, steps: seq<Step>, id: nat)
    requires Initial(s)
    requires var r := Run(s, steps); id in r.threads && !Finished(r.threads[id])
    ensures
      var r := Run(s, steps);
      Enabled(r, Thread(id)) || (r.holder.Some? && Enabled(r, Thread(r.holder.value)))
  {
    InitialInv(s);
    RunKeepsInv(s, steps);
    var r := Run(s, steps);
    if r.holder.Some? {
      assert Inside(r.threads[r.holder.value]);
    }
  }

  /** A spawn is refused only by a closed tracker. */
  lemma OnlyClosedTrackersRefuse(s: State, steps: seq<Step>, id: nat)
    requires Initial(s)
    requires var r := Run(s, steps); id in r.threads && r.threads[id] == Refused
    ensures Run(s, steps).closed
  {
    InitialInv(s);
    RunKeepsInv(s, steps);
  }

  // ----- What one call does by itself -----

  function Alone(s: State, id: nat, count: nat): State
    decreases count
  {
    if count == 0 || !Enabled(s, Thread(id)) then s else Alone(Next(s, Thread(id)), id, count - 1)
  }

  /** A spawn on an open tracker counts, starts and lists its task; on a closed one it changes nothing. */
  lemma SpawnAlone(s: State, id: nat)
    requires s.holder.None? && id in s.threads && s.threads[id] == WantSpawn
    ensures Alone(s, id, 5) ==
      if s.closed then s.(threads := s.threads[id := Refused])
      else s.(threads := s.threads[id := Spawned], active := s.active + 1,
              running := s.running[id := true], tasks := s.tasks + [id])
  {
    var s1 := Next(s, Thread(id));
    var s2 := Next(s1, Thread(id));
    assert Alone(s, id, 5) == Alone(s2, id, 3);
    if s.closed {
      assert s2.threads == s.threads[id := Refused];
    } else {
      var s4 := Next(Next(s2, Thread(id)), Thread(id));
      assert Alone(s2, id, 3) == Alone(s4, id, 1) == Next(s4, Thread(id));
      assert Next(s4, Thread(id)).threads == s.threads[id := Spawned];
    }
  }

  /** A shutdown closes the tracker and takes every listed task, in order. */
  lemma CloseAlone(s: State, id: nat)
    requires s.holder.None? && id in s.threads && s.threads[id] == WantClose
    ensures Alone(s, id, 3) == s.(threads := s.threads[id := Closed], closed := true, tasks := [],
                                  taken := s.taken + s.tasks)
  {
    var s2 := Next(Next(s, Thread(id)), Thread(id));
    assert Alone(s, id, 3) == Alone(s2, id, 1) == Next(s2, Thread(id));
    assert Next(s2, Thread(id)).threads == s.threads[id := Closed];
  }
}
