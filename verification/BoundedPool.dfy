/**
 The bounded pool of base/ThreadPool.cpp as a protocol of atomic steps.

 Every stretch of code between acquiring the mutex and releasing it, by leaving the
 guard or by waiting, is one step; so is the unlocked test of `running_` in the worker
 loop. A thread that waits is asleep until some notification takes it off the condition
 variable (or it wakes for no reason); then it is signalled until it has the mutex
 again, and any other thread may get there first. `notify` wakes at least one sleeper if
 there is one.
 */
module BoundedPool {
  import opened Threads

  /** A producer inside `run` that found the queue full. */
  datatype Waiter =
    | Blocked(task: Task)       // waiting on notFull_
    | Woken(task: Task)         // taken off notFull_, about to lock the mutex again

  datatype Pool = Pool(
    max: nat,
    running: bool,
    queue: seq<Task>,
    place: map<Tid, Place>,     // the worker threads
    waiting: map<Tid, Waiter>,  // the producers that wait
    accepted: seq<Task>,        // tasks in the order they entered the queue
    dispatched: seq<Task>,      // tasks in the order they left it
    done: set<nat>)             // positions in `dispatched` whose task has finished

  function BlockedIn(waiting: map<Tid, Waiter>): set<Tid> {
    set p | p in waiting && waiting[p].Blocked?
  }

  function WokenIn(waiting: map<Tid, Waiter>): set<Tid> {
    set p | p in waiting && waiting[p].Woken?
  }

  function SignalProducers(waiting: map<Tid, Waiter>, wake: set<Tid>): map<Tid, Waiter> {
    map p | p in waiting :: if p in wake then Woken(waiting[p].task) else waiting[p]
  }

  predicate IsFull(s: Pool) { s.max > 0 && |s.queue| >= s.max }

  /** After `start`, with the given worker threads. */
  function Started(max: nat, workers: set<Tid>): Pool {
    Pool(max, true, [], map w | w in workers :: Looping, map[], [], [], {})
  }

  datatype Step =
    | Test(w: Tid)
    | Take(w: Tid, wake: set<Tid>)
    | Finish(w: Tid)
    | Submit(p: Tid, task: Task, wake: set<Tid>)
    | Retry(p: Tid, wake: set<Tid>)
    | WakeWorker(w: Tid)
    | WakeProducer(p: Tid)
    | Stop

  predicate Enabled(s: Pool, step: Step) {
    match step
    case Test(w) => w in s.place && s.place[w].Looping?
    case Take(w, wake) =>
      w in s.place && (s.place[w].Ready? || s.place[w].Signalled?) && Wakes(wake, BlockedIn(s.waiting))
    // A task may itself call `run`, on the worker that executes it; it ends only when that returns.
    case Finish(w) => w in s.place && s.place[w].Executing? && w !in s.waiting
    case Submit(p, task, wake) =>
      p !in s.waiting && (p in s.place ==> s.place[p].Executing?) && Wakes(wake, At(s.place, Asleep))
    case Retry(p, wake) => p in s.waiting && s.waiting[p].Woken? && Wakes(wake, At(s.place, Asleep))
    case WakeWorker(w) => w in s.place && s.place[w].Asleep?
    case WakeProducer(p) => p in s.waiting && s.waiting[p].Blocked?
    case Stop => true
  }

  /** The critical section of `take`, by worker `w`. */
  function AfterTake(s: Pool, w: Tid, wake: set<Tid>): Pool {
    if s.queue == [] then s.(place := s.place[w := if s.running then Asleep else Looping])
    else s.(queue := s.queue[1..],
            dispatched := s.dispatched + [s.queue[0]],
            place := s.place[w := Executing(|s.dispatched|)],
            waiting := if s.max > 0 then SignalProducers(s.waiting, wake) else s.waiting)
  }

  /** The critical section of `run`, by producer `p`. */
  function AfterRun(s: Pool, p: Tid, task: Task, wake: set<Tid>): Pool {
    if IsFull(s) then s.(waiting := s.waiting[p := Blocked(task)])
    else s.(queue := s.queue + [task],
            accepted := s.accepted + [task],
            place := SignalWorkers(s.place, wake),
            waiting := s.waiting - {p})
  }

  function After(s: Pool, step: Step): Pool
    requires Enabled(s, step)
  {
    match step
    case Test(w) => s.(place := s.place[w := if s.running then Ready else Exited])
    case Take(w, wake) => AfterTake(s, w, wake)
    case Finish(w) => s.(place := s.place[w := Looping], done := s.done + {s.place[w].position})
    case Submit(p, task, wake) =>
      if s.place == map[] then
        // No threads: the caller runs the task itself.
        s.(accepted := s.accepted + [task], dispatched := s.dispatched + [task], done := s.done + {|s.dispatched|})
      else AfterRun(s, p, task, wake)
    case Retry(p, wake) => AfterRun(s, p, s.waiting[p].task, wake)
    case WakeWorker(w) => s.(place := s.place[w := Signalled])
    case WakeProducer(p) => s.(waiting := s.waiting[p := Woken(s.waiting[p].task)])
    case Stop => s.(running := false, place := SignalWorkers(s.place, At(s.place, Asleep)))
  }

  // ---- the invariants ----

  ghost predicate Placed(s: Pool) {
    && (s.running ==> At(s.place, Exited) == {})
    && (!s.running ==> At(s.place, Asleep) == {})
    && (s.place == map[] ==> s.queue == [] && s.waiting == map[])
    && (s.max == 0 ==> s.waiting == map[])
  }

  /** A worker that waits inside `run` does so for the task it executes. */
  predicate CallersExecute(s: Pool) {
    forall p | p in s.waiting && p in s.place :: s.place[p].Executing?
  }

  /** A worker sleeps only if every queued task has a signalled worker of its own. */
  predicate NoLostTask(s: Pool) {
    At(s.place, Asleep) != {} ==> |s.queue| <= |At(s.place, Signalled)|
  }

  /** A producer sleeps only if every free slot has a signalled producer of its own. */
  predicate NoLostSlot(s: Pool) {
    BlockedIn(s.waiting) != {} ==> s.max - |s.queue| <= |WokenIn(s.waiting)|
  }

  predicate Bounded(s: Pool) { s.max > 0 ==> |s.queue| <= s.max }

  ghost predicate Conserved(s: Pool) {
    Accounted(s.place, s.queue, s.accepted, s.dispatched, s.done)
  }

  ghost predicate Inv(s: Pool) {
    Placed(s) && CallersExecute(s) && NoLostTask(s) && NoLostSlot(s) && Bounded(s) && Conserved(s)
  }

  // ---- moving threads about ----

  lemma ProducersSignalled(waiting: map<Tid, Waiter>, wake: set<Tid>)
    requires wake <= BlockedIn(waiting)
    ensures var waiting' := SignalProducers(waiting, wake);
      && BlockedIn(waiting') == BlockedIn(waiting) - wake
      && |WokenIn(waiting')| == |WokenIn(waiting)| + |wake|
  {
    assert WokenIn(waiting) !! wake;
    assert WokenIn(SignalProducers(waiting, wake)) == WokenIn(waiting) + wake;
  }

  // ---- every step keeps them ----

  lemma StartedInv(max: nat, workers: set<Tid>)
    ensures Inv(Started(max, workers))
  {
  }

  lemma StepKeepsPlaces(s: Pool, step: Step)
    requires Placed(s) && Enabled(s, step)
    ensures Placed(After(s, step))
  {
    hide At, SignalWorkers, AfterRun;
    match step
    case Test(w) => WorkerMoved(s, w, After(s, step));
    case Take(w, wake) => WorkerMoved(s, w, After(s, step));
    case Finish(w) => WorkerMoved(s, w, After(s, step));
    case Submit(p, task, wake) =>
      if s.place != map[] { RunKeepsPlaces(s, p, task, wake); }
    case Retry(p, wake) => RunKeepsPlaces(s, p, s.waiting[p].task, wake);
    case WakeWorker(w) => WorkerMoved(s, w, After(s, step));
    case WakeProducer(p) =>
    case Stop => WorkersSignalled(s.place, At(s.place, Asleep));
  }

  lemma StepKeepsCallers(s: Pool, step: Step)
    requires CallersExecute(s) && Enabled(s, step)
    ensures CallersExecute(After(s, step))
  {
    match step
    case Submit(p, task, wake) => SignalKeepsExecuting(s.place, wake);
    case Retry(p, wake) => SignalKeepsExecuting(s.place, wake);
    case Stop => SignalKeepsExecuting(s.place, At(s.place, Asleep));
    case _ =>
  }

  lemma RunKeepsPlaces(s: Pool, p: Tid, task: Task, wake: set<Tid>)
    requires Placed(s) && s.place != map[] && Wakes(wake, At(s.place, Asleep))
    ensures Placed(AfterRun(s, p, task, wake))
  {
    WorkersSignalled(s.place, wake);
    hide At, SignalWorkers;
  }

  lemma SignalKeepsExecuting(place: map<Tid, Place>, wake: set<Tid>)
    requires wake <= At(place, Asleep)
    ensures forall w | w in place && place[w].Executing? :: SignalWorkers(place, wake)[w] == place[w]
  {
  }

  lemma WorkerMoved(s: Pool, w: Tid, s': Pool)
    requires Placed(s) && w in s.place && w in s'.place && s'.place == s.place[w := s'.place[w]]
    requires s'.running == s.running && (s.running ==> s'.place[w] != Exited) && (!s.running ==> s'.place[w] != Asleep)
    requires s'.max == s.max && s'.waiting.Keys == s.waiting.Keys
    ensures Placed(s')
  {
    Moved(s.place, w, s'.place[w], Exited);
    Moved(s.place, w, s'.place[w], Asleep);
    hide At;
  }

  lemma TakeLosesNoTask(s: Pool, w: Tid, wake: set<Tid>)
    requires NoLostTask(s) && Enabled(s, Take(w, wake))
    ensures NoLostTask(After(s, Take(w, wake)))
  {
    hide At, SignalProducers, Wakes, BlockedIn;
    if s.queue != [] {
      MovedAwake(s.place, w, Executing(|s.dispatched|));
    } else if !s.running {
      MovedAwake(s.place, w, Looping);
    }
  }

  lemma PushLosesNoTask(s: Pool, p: Tid, task: Task, wake: set<Tid>)
    requires NoLostTask(s) && Wakes(wake, At(s.place, Asleep))
    ensures NoLostTask(AfterRun(s, p, task, wake))
  {
    WorkersSignalled(s.place, wake);
    hide At, SignalWorkers;
  }

  lemma StepLosesNoTask(s: Pool, step: Step)
    requires NoLostTask(s) && Enabled(s, step)
    ensures NoLostTask(After(s, step))
  {
    hide At, SignalWorkers, SignalProducers, AfterRun, AfterTake, NoLostTask;
    match step
    case Test(w) => OthersLoseNoTask(s, w, if s.running then Ready else Exited);
    case Take(w, wake) => TakeLosesNoTask(s, w, wake);
    case Finish(w) => OthersLoseNoTask(s, w, Looping);
    case Submit(p, task, wake) =>
      PushLosesNoTask(s, p, task, wake);
      if s.place == map[] { NobodyAsleep(After(s, step)); }
    case Retry(p, wake) => PushLosesNoTask(s, p, s.waiting[p].task, wake);
    case WakeWorker(w) => OthersLoseNoTask(s, w, Signalled);
    case WakeProducer(p) => SameTasks(s, After(s, step));
    case Stop =>
      WorkersSignalled(s.place, At(s.place, Asleep));
      NobodyAsleep(After(s, step));
  }

  lemma NobodyAsleep(s: Pool)
    requires s.place == map[] || At(s.place, Asleep) == {}
    ensures NoLostTask(s)
  {
  }

  lemma SameTasks(s: Pool, s': Pool)
    requires NoLostTask(s) && s'.place == s.place && s'.queue == s.queue
    ensures NoLostTask(s')
  {
  }

  lemma OthersLoseNoTask(s: Pool, w: Tid, to: Place)
    requires NoLostTask(s) && w in s.place && s.place[w] != Signalled && to != Asleep
    ensures forall s': Pool | s'.place == s.place[w := to] && s'.queue == s.queue :: NoLostTask(s')
  {
    MovedAwake(s.place, w, to);
    hide At;
  }

  lemma ProducerLeft(waiting: map<Tid, Waiter>, p: Tid)
    requires p in waiting && waiting[p].Woken?
    ensures BlockedIn(waiting - {p}) == BlockedIn(waiting)
    ensures |WokenIn(waiting - {p})| == |WokenIn(waiting)| - 1
  {
    assert WokenIn(waiting - {p}) == WokenIn(waiting) - {p};
  }

  lemma ProducerWoken(waiting: map<Tid, Waiter>, p: Tid, task: Task)
    requires p in waiting && waiting[p].Blocked?
    ensures BlockedIn(waiting[p := Woken(task)]) <= BlockedIn(waiting)
    ensures |WokenIn(waiting[p := Woken(task)])| == |WokenIn(waiting)| + 1
  {
    assert WokenIn(waiting[p := Woken(task)]) == WokenIn(waiting) + {p};
  }

  lemma StepLosesNoSlot(s: Pool, step: Step)
    requires NoLostSlot(s) && Bounded(s) && Enabled(s, step)
    ensures NoLostSlot(After(s, step)) && Bounded(After(s, step))
  {
    match step
    case Test(w) =>
    case Take(w, wake) => ProducersSignalled(s.waiting, wake);
    case Finish(w) =>
    case Submit(p, task, wake) => assert s.waiting - {p} == s.waiting;
    case Retry(p, wake) => ProducerLeft(s.waiting, p);
    case WakeWorker(w) =>
    case WakeProducer(p) => ProducerWoken(s.waiting, p, s.waiting[p].task);
    case Stop =>
  }

  lemma StepConserves(s: Pool, step: Step)
    requires Conserved(s) && Placed(s) && Enabled(s, step)
    ensures Conserved(After(s, step))
  {
    match step
    case Test(w) => AccountedOffTask(s.place, w, After(s, step).place[w], s.queue, s.accepted, s.dispatched, s.done);
    case Take(w, wake) =>
      if s.queue == [] {
        AccountedOffTask(s.place, w, After(s, step).place[w], s.queue, s.accepted, s.dispatched, s.done);
      } else {
        AccountedAtTake(s.place, w, s.queue, s.accepted, s.dispatched, s.done);
      }
    case Finish(w) => AccountedAtFinish(s.place, w, Looping, s.queue, s.accepted, s.dispatched, s.done);
    case Submit(p, task, wake) =>
      if s.place != map[] { AccountedAtPush(s.place, wake, task, s.queue, s.accepted, s.dispatched, s.done); }
    case Retry(p, wake) => AccountedAtPush(s.place, wake, s.waiting[p].task, s.queue, s.accepted, s.dispatched, s.done);
    case WakeWorker(w) => AccountedOffTask(s.place, w, Signalled, s.queue, s.accepted, s.dispatched, s.done);
    case WakeProducer(p) =>
    case Stop => AccountedAtSignal(s.place, At(s.place, Asleep), s.queue, s.accepted, s.dispatched, s.done);
  }

  lemma StepKeepsInv(s: Pool, step: Step)
    requires Inv(s) && Enabled(s, step)
    ensures Inv(After(s, step))
  {
    hide Placed, CallersExecute, NoLostTask, NoLostSlot, Bounded, Conserved, After, Enabled;
    StepKeepsPlaces(s, step);
    StepKeepsCallers(s, step);
    StepLosesNoTask(s, step);
    StepLosesNoSlot(s, step);
    StepConserves(s, step);
  }

  // ---- whole runs ----

  /** The states of a run: it starts with `start` and every next state is some step's result. */
  ghost predicate IsRun(run: seq<Pool>, steps: seq<Step>) {
    && |run| == |steps| + 1
    && forall i | 0 <= i < |steps| :: Enabled(run[i], steps[i]) && run[i + 1] == After(run[i], steps[i])
  }

  lemma {:induction false} RunKeepsInv(run: seq<Pool>, steps: seq<Step>, i: nat)
    requires IsRun(run, steps) && Inv(run[0]) && i < |run|
    ensures Inv(run[i])
  {
    if i > 0 {
      RunKeepsInv(run, steps, i - 1);
      StepKeepsInv(run[i - 1], steps[i - 1]);
    }
  }

  /** Sleepers are outnumbered by threads already on their way, under every interleaving. */
  lemma NoLostWakeup(run: seq<Pool>, steps: seq<Step>, i: nat, max: nat, workers: set<Tid>)
    requires IsRun(run, steps) && run[0] == Started(max, workers) && i < |run|
    ensures var s := run[i];
      var sleeping, blocked := At(s.place, Asleep), BlockedIn(s.waiting);
      var signalled, woken := At(s.place, Signalled), WokenIn(s.waiting);
      && (sleeping != {} ==> |s.queue| <= |signalled|)
      && (blocked != {} ==> max - |s.queue| <= |woken|)
      && (sleeping != {} && blocked != {} ==> 0 < max <= |signalled| + |woken|)
  {
    StartedInv(max, workers);
    RunKeepsInv(run, steps, i);
    MaxIsConstant(run, steps, i);
  }

  lemma {:induction false} MaxIsConstant(run: seq<Pool>, steps: seq<Step>, i: nat)
    requires IsRun(run, steps) && i < |run|
    ensures run[i].max == run[0].max && run[i].place.Keys == run[0].place.Keys
  {
    if i > 0 {
      MaxIsConstant(run, steps, i - 1);
      assert run[i] == After(run[i - 1], steps[i - 1]);
    }
  }

  /** Tasks leave in the order they entered, none twice, and the bound is never exceeded. */
  lemma TasksAreConserved(run: seq<Pool>, steps: seq<Step>, i: nat, max: nat, workers: set<Tid>)
    requires IsRun(run, steps) && run[0] == Started(max, workers) && i < |run|
    ensures var s := run[i];
      && s.dispatched + s.queue == s.accepted
      && (max > 0 ==> |s.queue| <= max)
      && (forall k: nat | k < |s.dispatched| :: k in s.done <==> At(s.place, Executing(k)) == {})
      && (forall v, w, k | v in At(s.place, Executing(k)) && w in At(s.place, Executing(k)) :: v == w)
  {
    StartedInv(max, workers);
    RunKeepsInv(run, steps, i);
    MaxIsConstant(run, steps, i);
  }

  /** A step that a thread takes by itself: no new call, no shutdown, no spurious wakeup. */
  predicate Internal(step: Step) {
    step.Test? || step.Take? || step.Finish? || step.Retry?
  }

  /** Worker `w` executes a task that waits inside `run` of this very pool. */
  predicate Held(s: Pool, w: Tid) {
    w in s.place && s.place[w].Executing? && w in s.waiting
  }

  /** Every worker waits for room in the queue, and only a worker could make room. */
  predicate Deadlocked(s: Pool) {
    && (forall w | w in s.place :: Held(s, w))
    && (forall p | p in s.waiting :: s.waiting[p].Blocked?)
  }

  /**
   A running pool with work or with a waiting producer has a thread that can step by itself,
   unless every worker is executing a task that sleeps in `run` and nobody has been woken.
   */
  lemma StuckIffDeadlocked(s: Pool)
    requires Inv(s) && s.running && s.place != map[]
    requires s.queue != [] || s.waiting != map[]
    ensures (exists step :: Enabled(s, step) && Internal(step)) <==> !Deadlocked(s)
  {
    if woken :| woken in s.waiting && s.waiting[woken].Woken? {
      assert Enabled(s, Retry(woken, At(s.place, Asleep)));
    } else if !Deadlocked(s) {
      if s.waiting != map[] {
        var p :| p in s.waiting;
        assert p in BlockedIn(s.waiting);
        assert WokenIn(s.waiting) == {};
        assert s.queue != [];
      }
      if At(s.place, Asleep) != {} {
        assert At(s.place, Signalled) != {};
        var w :| w in At(s.place, Signalled);
        assert Enabled(s, Take(w, BlockedIn(s.waiting)));
      } else {
        var w :| w in s.place && !Held(s, w);
        assert w !in At(s.place, Exited) && w !in At(s.place, Asleep);
        WorkerCanStep(s, w);
      }
    }
  }

  lemma WorkerCanStep(s: Pool, w: Tid)
    requires w in s.place && !s.place[w].Exited? && !s.place[w].Asleep? && !Held(s, w)
    ensures exists step :: Enabled(s, step) && Internal(step) && IsWorkerStep(step)
  {
    match s.place[w]
    case Looping => assert Enabled(s, Test(w));
    case Ready => assert Enabled(s, Take(w, BlockedIn(s.waiting)));
    case Signalled => assert Enabled(s, Take(w, BlockedIn(s.waiting)));
    case Executing(_) => assert Enabled(s, Finish(w));
    case _ =>
  }

  /** Every worker is held and the queue is full. */
  predicate Jammed(s: Pool) {
    s.place != map[] && IsFull(s) && forall w | w in s.place :: Held(s, w)
  }

  lemma JammedStep(s: Pool, step: Step)
    requires Jammed(s) && Enabled(s, step)
    ensures var s' := After(s, step);
      && Jammed(s') && s'.place == s.place && s'.queue == s.queue
      && s'.accepted == s.accepted && s'.dispatched == s.dispatched && s'.done == s.done
  {
    if step.Stop? {
      assert At(s.place, Asleep) == {};
      assert SignalWorkers(s.place, {}) == s.place;
    }
  }

  lemma DeadlockedIsJammed(s: Pool)
    requires Inv(s) && s.place != map[] && Deadlocked(s)
    ensures Jammed(s)
  {
    var w :| w in s.place;
    assert Held(s, w) && w in BlockedIn(s.waiting);
    assert WokenIn(s.waiting) == {};
  }

  /** Nothing ends a deadlock: no spurious wakeup, no other caller, not even `stop`. */
  lemma {:induction false} DeadlockIsForGood(run: seq<Pool>, steps: seq<Step>, i: nat)
    requires IsRun(run, steps) && i < |run|
    requires Inv(run[0]) && run[0].place != map[] && Deadlocked(run[0])
    ensures Jammed(run[i]) && run[i].place == run[0].place
    ensures run[i].dispatched == run[0].dispatched && run[i].done == run[0].done && run[i].accepted == run[0].accepted
  {
    hide Inv, Deadlocked, Jammed, After, Enabled;
    if i == 0 {
      DeadlockedIsJammed(run[0]);
    } else {
      DeadlockIsForGood(run, steps, i - 1);
      JammedStep(run[i - 1], steps[i - 1]);
    }
  }

  /** One worker, whose task submits twice to a queue of one. */
  lemma TasksMayDeadlockThePool() returns (run: seq<Pool>, steps: seq<Step>)
    ensures IsRun(run, steps) && run[0] == Started(1, {0})
    ensures var s := run[|steps|];
      Deadlocked(s) && s.queue == [8] && s.place == map[0 := Executing(0)] && s.waiting == map[0 := Blocked(9)]
  {
    var s0 := Started(1, {0});
    var s1 := After(s0, Submit(1, 7, {}));
    assert s1.place == s0.place;
    var s2 := After(s1, Test(0));
    assert BlockedIn(s2.waiting) == {};
    var s3 := After(s2, Take(0, {}));
    assert s3.place == map[0 := Executing(0)] && s3.waiting == map[];
    var s4 := After(s3, Submit(0, 8, {}));
    assert s4.place == s3.place;
    var s5 := After(s4, Submit(0, 9, {}));
    run := [s0, s1, s2, s3, s4, s5];
    steps := [Submit(1, 7, {}), Test(0), Take(0, {}), Submit(0, 8, {}), Submit(0, 9, {})];
  }

  // ---- shutdown ----

  predicate IsWorkerStep(step: Step) { step.Test? || step.Take? || step.Finish? }

  /** How many more steps the workers can take once the pool has stopped. */
  function Remaining(place: map<Tid, Place>): nat {
    3 * (|At(place, Ready)| + |At(place, Signalled)|) + 2 * |Busy(place)| + |At(place, Looping)|
  }

  lemma RemainingMoved(place: map<Tid, Place>, w: Tid, to: Place)
    requires w in place && !place[w].Asleep? && !to.Asleep?
    ensures Remaining(place[w := to]) == Remaining(place) - Rank(place[w]) + Rank(to)
  {
    Moved(place, w, to, Ready);
    Moved(place, w, to, Signalled);
    Moved(place, w, to, Looping);
    BusyMoved(place, w, to);
    hide At, Busy;
  }

  function Rank(p: Place): nat {
    match p
    case Ready => 3
    case Signalled => 3
    case Executing(_) => 2
    case Looping => 1
    case _ => 0
  }

  /** After `stop`, every worker step brings the end nearer and no other step moves it away. */
  lemma StoppedStep(s: Pool, step: Step)
    requires Placed(s) && !s.running && Enabled(s, step)
    ensures var s' := After(s, step);
      && !s'.running
      && (if IsWorkerStep(step) then Remaining(s'.place) < Remaining(s.place) else s'.place == s.place)
  {
    hide Remaining;
    match step
    case Test(w) => RemainingMoved(s.place, w, Exited);
    case Take(w, wake) => RemainingMoved(s.place, w, After(s, step).place[w]);
    case Finish(w) => RemainingMoved(s.place, w, Looping);
    case Submit(p, task, wake) => assert SignalWorkers(s.place, {}) == s.place;
    case Retry(p, wake) => assert SignalWorkers(s.place, {}) == s.place;
    case WakeWorker(w) =>
      if w in At(s.place, Asleep) { assert false; }
    case WakeProducer(p) =>
    case Stop => assert SignalWorkers(s.place, {}) == s.place;
  }

  function WorkerSteps(steps: seq<Step>): nat {
    if steps == [] then 0
    else (if IsWorkerStep(steps[|steps| - 1]) then 1 else 0) + WorkerSteps(steps[..|steps| - 1])
  }

  lemma {:induction false} StoppedRun(run: seq<Pool>, steps: seq<Step>)
    requires IsRun(run, steps) && Inv(run[0]) && !run[0].running
    ensures var s := run[|steps|];
      !s.running && Inv(s) && WorkerSteps(steps) + Remaining(s.place) <= Remaining(run[0].place)
    decreases |steps|
  {
    hide Conserved, NoLostTask, NoLostSlot, Placed, After, Enabled, Remaining;
    var n := |steps|;
    RunKeepsInv(run, steps, n);
    if n > 0 {
      assert IsRun(run[..n], steps[..n - 1]);
      StoppedRun(run[..n], steps[..n - 1]);
      StoppedStep(run[n - 1], steps[n - 1]);
    }
  }

  lemma RemainingBound(place: map<Tid, Place>)
    ensures Remaining(place) <= 3 * |place|
  {
    var r, g, b, l := At(place, Ready), At(place, Signalled), Busy(place), At(place, Looping);
    assert r !! g !! b !! l;
    assert |r + g + b + l| == |r| + |g| + |b| + |l|;
    Within(r + g + b + l, place.Keys);
  }

  /**
   Once stopped, the workers take at most three steps each; and one of them can take a step
   if and only if some worker has neither exited nor is held by a task that waits in `run`.
   */
  lemma JoinsComplete(run: seq<Pool>, steps: seq<Step>)
    requires IsRun(run, steps) && Inv(run[0]) && !run[0].running
    ensures var s := run[|steps|];
      && WorkerSteps(steps) <= 3 * |s.place|
      && ((exists step :: Enabled(s, step) && IsWorkerStep(step))
          <==> exists w :: w in s.place && !s.place[w].Exited? && !Held(s, w))
  {
    var s := run[|steps|];
    StoppedRun(run, steps);
    MaxIsConstant(run, steps, |steps|);
    RemainingBound(run[0].place);
    assert |run[0].place| == |run[0].place.Keys| == |s.place|;
    WorkerStepsIff(s);
  }

  lemma WorkerStepsIff(s: Pool)
    requires Placed(s) && !s.running
    ensures (exists step :: Enabled(s, step) && IsWorkerStep(step))
      <==> exists w :: w in s.place && !s.place[w].Exited? && !Held(s, w)
  {
    if w :| w in s.place && !s.place[w].Exited? && !Held(s, w) {
      assert w !in At(s.place, Asleep);
      WorkerCanStep(s, w);
    }
    if step :| Enabled(s, step) && IsWorkerStep(step) {
      assert step.w in s.place && !s.place[step.w].Exited? && !Held(s, step.w);
    }
  }

  /** The number of tasks worker `w` takes off the queue during a run. */
  function TakenBy(run: seq<Pool>, steps: seq<Step>, w: Tid): nat
    requires |run| == |steps| + 1
    decreases |steps|
  {
    var n := |steps|;
    if n == 0 then 0
    else (if steps[n - 1].Take? && steps[n - 1].w == w && run[n - 1].queue != [] then 1 else 0)
         + TakenBy(run[..n], steps[..n - 1], w)
  }

  predicate MayTake(p: Place) { p.Ready? || p.Signalled? }

  /** After `stop` a worker dispatches at most one more task, and only if it was already inside `take`. */
  lemma {:induction false} AtMostOneMoreTask(run: seq<Pool>, steps: seq<Step>, w: Tid)
    requires IsRun(run, steps) && Inv(run[0]) && !run[0].running && w in run[0].place
    ensures w in run[|steps|].place
    ensures TakenBy(run, steps, w) + (if MayTake(run[|steps|].place[w]) then 1 else 0)
      <= if MayTake(run[0].place[w]) then 1 else 0
    decreases |steps|
  {
    hide Conserved, NoLostTask, NoLostSlot, Placed, After, Enabled, Remaining, MayTake;
    var n := |steps|;
    MaxIsConstant(run, steps, n);
    if n > 0 {
      assert IsRun(run[..n], steps[..n - 1]);
      AtMostOneMoreTask(run[..n], steps[..n - 1], w);
      StoppedRun(run[..n], steps[..n - 1]);
      StoppedPlace(run[n - 1], steps[n - 1], w);
    }
  }

  lemma StoppedPlace(s: Pool, step: Step, w: Tid)
    requires Placed(s) && !s.running && Enabled(s, step) && w in s.place
    ensures w in After(s, step).place
    ensures MayTake(After(s, step).place[w]) ==> MayTake(s.place[w]) && !(step.Take? && step.w == w)
    ensures step.Take? && step.w == w ==> MayTake(s.place[w])
  {
    if !IsWorkerStep(step) {
      StoppedStep(s, step);
    }
  }

  // ---- at rest ----

  /** How many more steps the workers of a running pool can take by themselves. */
  function Effort(s: Pool): nat {
    2 * |At(s.place, Looping)| + |At(s.place, Ready)| + |At(s.place, Signalled)| + 3 * |Busy(s.place)| + 3 * |s.queue|
  }

  function EffortAt(p: Place): nat {
    match p
    case Looping => 2
    case Ready => 1
    case Signalled => 1
    case Executing(_) => 3
    case _ => 0
  }

  lemma EffortMoved(s: Pool, s': Pool, w: Tid, to: Place)
    requires w in s.place && s'.place == s.place[w := to]
    ensures Effort(s') == Effort(s) - EffortAt(s.place[w]) + EffortAt(to) - 3 * |s.queue| + 3 * |s'.queue|
  {
    Moved(s.place, w, to, Looping);
    Moved(s.place, w, to, Ready);
    Moved(s.place, w, to, Signalled);
    BusyMoved(s.place, w, to);
    hide At, Busy;
  }

  /** Left to themselves, the workers of a running pool come to rest: they do not spin. */
  lemma {:induction false} WorkersComeToRest(run: seq<Pool>, steps: seq<Step>)
    requires IsRun(run, steps) && run[0].running && forall step | step in steps :: IsWorkerStep(step)
    ensures run[|steps|].running && |steps| + Effort(run[|steps|]) <= Effort(run[0])
    decreases |steps|
  {
    hide Effort, Enabled;
    var n := |steps|;
    if n > 0 {
      assert IsRun(run[..n], steps[..n - 1]);
      assert forall step | step in steps[..n - 1] :: step in steps;
      WorkersComeToRest(run[..n], steps[..n - 1]);
      assert steps[n - 1] in steps;
      WorkerStepTakesEffort(run[n - 1], steps[n - 1]);
    }
  }

  lemma WorkerStepTakesEffort(s: Pool, step: Step)
    requires s.running && Enabled(s, step) && IsWorkerStep(step)
    ensures After(s, step).running && Effort(After(s, step)) < Effort(s)
  {
    hide Effort;
    var w := step.w;
    EffortMoved(s, After(s, step), w, After(s, step).place[w]);
  }

  // ---- what shutdown leaves behind ----

  /** When every worker has exited, no queued task will ever be dispatched. */
  lemma NothingAfterExit(s: Pool, step: Step)
    requires Inv(s) && s.place != map[] && At(s.place, Exited) == s.place.Keys && Enabled(s, step)
    ensures var s' := After(s, step);
      s'.dispatched == s.dispatched && s'.place == s.place
  {
    assert !s.running;
    assert forall w | w in s.place :: w in At(s.place, Exited);
    StoppedStep(s, step);
  }

  /** Unlike the packaged-task pool this one does not drain: an accepted task can be dropped and a producer stranded. */
  lemma StopMayDropAndStrand() returns (run: seq<Pool>, steps: seq<Step>)
    ensures IsRun(run, steps) && run[0] == Started(1, {0})
    ensures var s := run[|steps|];
      && At(s.place, Exited) == s.place.Keys
      && s.accepted == [7] && s.dispatched == [] && s.waiting == map[2 := Blocked(8)]
  {
    var s0 := Started(1, {0});
    assert At(s0.place, Asleep) == {};
    var s1 := After(s0, Submit(1, 7, {}));
    assert s1.place == s0.place;
    var s2 := After(s1, Submit(2, 8, {}));
    var s3 := After(s2, Stop);
    assert s3.place == s0.place;
    var s4 := After(s3, Test(0));
    run := [s0, s1, s2, s3, s4];
    steps := [Submit(1, 7, {}), Submit(2, 8, {}), Stop, Test(0)];
  }
}
