/**
 The packaged-task pool of main/ThreadPool.h as a protocol of atomic steps.

 Unlike the bounded pool, `enqueue` and the destructor notify after they have released
 the mutex, so a notification can be on its way; and a worker leaves only when the pool
 is stopping and the queue is empty.
 */
module DrainingPool {
  import opened Threads

  datatype Pool = Pool(
    stop: bool,
    notified: bool,          // the destructor's notify_all has been sent
    tasks: seq<Task>,
    place: map<Tid, Place>,
    pending: nat,            // calls of enqueue between unlocking and notify_one
    accepted: seq<Task>,
    dispatched: seq<Task>,
    done: set<nat>)

  function Constructed(workers: set<Tid>): Pool {
    Pool(false, false, [], map w | w in workers :: Ready, 0, [], [], {})
  }

  datatype Step =
    | Enter(w: Tid)
    | Finish(w: Tid)
    | Enqueue(task: Task)
    | NotifyOne(wake: set<Tid>)
    | Spurious(w: Tid)
    | SetStop
    | NotifyAll

  predicate Enabled(s: Pool, step: Step) {
    match step
    case Enter(w) => w in s.place && (s.place[w].Ready? || s.place[w].Signalled?)
    case Finish(w) => w in s.place && s.place[w].Executing?
    case Enqueue(task) => true
    case NotifyOne(wake) => s.pending > 0 && Wakes(wake, At(s.place, Asleep))
    case Spurious(w) => w in s.place && s.place[w].Asleep?
    case SetStop => !s.stop
    case NotifyAll => s.stop && !s.notified
  }

  /** The locked part of a worker's turn: wait, leave, or pop a task. */
  function AfterEnter(s: Pool, w: Tid): Pool {
    if s.tasks == [] then s.(place := s.place[w := if s.stop then Exited else Asleep])
    else s.(tasks := s.tasks[1..],
            dispatched := s.dispatched + [s.tasks[0]],
            place := s.place[w := Executing(|s.dispatched|)])
  }

  function After(s: Pool, step: Step): Pool
    requires Enabled(s, step)
  {
    match step
    case Enter(w) => AfterEnter(s, w)
    case Finish(w) => s.(place := s.place[w := Ready], done := s.done + {s.place[w].position})
    case Enqueue(task) =>
      // Once the pool is stopping, enqueue throws and changes nothing.
      if s.stop then s
      else s.(tasks := s.tasks + [task], accepted := s.accepted + [task], pending := s.pending + 1)
    case NotifyOne(wake) => s.(place := SignalWorkers(s.place, wake), pending := s.pending - 1)
    case Spurious(w) => s.(place := s.place[w := Signalled])
    case SetStop => s.(stop := true)
    case NotifyAll => s.(place := SignalWorkers(s.place, At(s.place, Asleep)), notified := true)
  }

  // ---- the invariants ----

  ghost predicate Shutdown(s: Pool) {
    && (s.notified ==> s.stop && At(s.place, Asleep) == {})
    && (At(s.place, Exited) != {} ==> s.stop && s.tasks == [])
    && At(s.place, Looping) == {}
  }

  /** A worker sleeps only if every queued task has a signalled worker or a notification on its way. */
  predicate NoLostTask(s: Pool) {
    At(s.place, Asleep) != {} ==> |s.tasks| <= |At(s.place, Signalled)| + s.pending
  }

  ghost predicate Inv(s: Pool) {
    Shutdown(s) && NoLostTask(s) && Accounted(s.place, s.tasks, s.accepted, s.dispatched, s.done)
  }

  lemma ConstructedInv(workers: set<Tid>)
    ensures Inv(Constructed(workers))
  {
  }

  lemma StepKeepsShutdown(s: Pool, step: Step)
    requires Shutdown(s) && Enabled(s, step)
    ensures Shutdown(After(s, step))
  {
  }

  lemma MoveLosesNoTask(s: Pool, s': Pool, w: Tid, to: Place)
    requires NoLostTask(s) && w in s.place && to != Asleep && s'.place == s.place[w := to]
    requires s'.pending == s.pending
    requires |s'.tasks| <= |s.tasks| - if s.place[w] == Signalled && to != Signalled then 1 else 0
    ensures NoLostTask(s')
  {
    MovedAwake(s.place, w, to);
    hide At;
  }

  lemma SignalLosesNoTask(s: Pool, wake: set<Tid>, pending: nat)
    requires NoLostTask(s) && Wakes(wake, At(s.place, Asleep)) && pending + 1 == s.pending
    ensures NoLostTask(s.(place := SignalWorkers(s.place, wake), pending := pending))
  {
    WorkersSignalled(s.place, wake);
    hide At, SignalWorkers;
  }

  lemma StepLosesNoTask(s: Pool, step: Step)
    requires NoLostTask(s) && Shutdown(s) && Enabled(s, step)
    ensures NoLostTask(After(s, step))
  {
    match step
    case Enter(w) =>
      if s.tasks != [] {
        MoveLosesNoTask(s, After(s, step), w, After(s, step).place[w]);
      } else if s.stop {
        LeavingLosesNoTask(s, w);
      }
    case Finish(w) => MoveLosesNoTask(s, After(s, step), w, Ready);
    case Enqueue(task) =>
    case NotifyOne(wake) => SignalLosesNoTask(s, wake, s.pending - 1);
    case Spurious(w) => MoveLosesNoTask(s, After(s, step), w, Signalled);
    case SetStop =>
    case NotifyAll => WorkersSignalled(s.place, At(s.place, Asleep));
  }

  lemma LeavingLosesNoTask(s: Pool, w: Tid)
    requires s.tasks == []
    ensures NoLostTask(s.(place := s.place[w := Exited]))
  {
  }

  lemma StepKeepsAccounts(s: Pool, step: Step)
    requires Accounted(s.place, s.tasks, s.accepted, s.dispatched, s.done) && Enabled(s, step)
    ensures var s' := After(s, step);
      Accounted(s'.place, s'.tasks, s'.accepted, s'.dispatched, s'.done)
  {
    match step
    case Enter(w) =>
      if s.tasks == [] {
        AccountedOffTask(s.place, w, After(s, step).place[w], s.tasks, s.accepted, s.dispatched, s.done);
      } else {
        AccountedAtTake(s.place, w, s.tasks, s.accepted, s.dispatched, s.done);
      }
    case Finish(w) => AccountedAtFinish(s.place, w, Ready, s.tasks, s.accepted, s.dispatched, s.done);
    case Enqueue(task) => AccountedAtPush(s.place, {}, task, s.tasks, s.accepted, s.dispatched, s.done);
    case NotifyOne(wake) => AccountedAtSignal(s.place, wake, s.tasks, s.accepted, s.dispatched, s.done);
    case Spurious(w) => AccountedOffTask(s.place, w, Signalled, s.tasks, s.accepted, s.dispatched, s.done);
    case SetStop =>
    case NotifyAll => AccountedAtSignal(s.place, At(s.place, Asleep), s.tasks, s.accepted, s.dispatched, s.done);
  }

  lemma StepKeepsInv(s: Pool, step: Step)
    requires Inv(s) && Enabled(s, step)
    ensures Inv(After(s, step))
  {
    hide Accounted, NoLostTask, Shutdown, After, Enabled;
    StepKeepsShutdown(s, step);
    StepLosesNoTask(s, step);
    StepKeepsAccounts(s, step);
  }

  lemma StepKeepsWorkers(s: Pool, step: Step)
    requires Enabled(s, step)
    ensures After(s, step).place.Keys == s.place.Keys
  {
  }

  // ---- whole runs ----

  ghost predicate IsRun(run: seq<Pool>, steps: seq<Step>) {
    && |run| == |steps| + 1
    && forall i | 0 <= i < |steps| :: Enabled(run[i], steps[i]) && run[i + 1] == After(run[i], steps[i])
  }

  lemma {:induction false} RunKeepsInv(run: seq<Pool>, steps: seq<Step>, i: nat)
    requires IsRun(run, steps) && Inv(run[0]) && i < |run|
    ensures Inv(run[i]) && run[i].place.Keys == run[0].place.Keys
  {
    hide Inv, After, Enabled;
    if i > 0 {
      RunKeepsInv(run, steps, i - 1);
      StepKeepsInv(run[i - 1], steps[i - 1]);
      StepKeepsWorkers(run[i - 1], steps[i - 1]);
    }
  }

  /** A sleeping worker is outnumbered by tasks' helpers that are already on their way. */
  lemma NoLostWakeup(run: seq<Pool>, steps: seq<Step>, i: nat, workers: set<Tid>)
    requires IsRun(run, steps) && run[0] == Constructed(workers) && i < |run|
    ensures At(run[i].place, Asleep) != {} ==> |run[i].tasks| <= |At(run[i].place, Signalled)| + run[i].pending
  {
    ConstructedInv(workers);
    RunKeepsInv(run, steps, i);
  }

  lemma {:induction false} StopLasts(run: seq<Pool>, steps: seq<Step>, i: nat, j: nat)
    requires IsRun(run, steps) && i <= j < |run| && run[i].stop && run[i].tasks == []
    ensures run[j].stop && run[j].tasks == [] && run[j].accepted == run[i].accepted
    decreases j - i
  {
    if i < j {
      StopLasts(run, steps, i, j - 1);
      assert run[j] == After(run[j - 1], steps[j - 1]);
    }
  }

  /** From the moment any worker has left, the pool is stopping and its queue empty, for good. */
  lemma DrainedOnceAWorkerLeft(run: seq<Pool>, steps: seq<Step>, i: nat, j: nat, workers: set<Tid>)
    requires IsRun(run, steps) && run[0] == Constructed(workers)
    requires i <= j < |run| && At(run[i].place, Exited) != {}
    ensures run[j].stop && run[j].tasks == [] && run[j].accepted == run[i].accepted
  {
    ConstructedInv(workers);
    RunKeepsInv(run, steps, i);
    StopLasts(run, steps, i, j);
  }

  /**
   When every worker has been joined, each accepted task was dispatched in its turn and
   has finished - exactly if there was a worker at all or nothing was accepted.
   */
  lemma JoinedMeansDone(run: seq<Pool>, steps: seq<Step>, workers: set<Tid>)
    requires IsRun(run, steps) && run[0] == Constructed(workers)
    requires var s := run[|steps|]; At(s.place, Exited) == s.place.Keys
    ensures var s := run[|steps|];
      s.dispatched == s.accepted && (forall i: nat :: i in s.done <==> i < |s.accepted|)
      <==> workers != {} || s.accepted == []
  {
    var s := run[|steps|];
    ConstructedInv(workers);
    RunKeepsInv(run, steps, |steps|);
    assert s.place.Keys == workers;
    if workers != {} {
      assert s.tasks == [];
      forall i: nat | i < |s.dispatched|
        ensures i in s.done
      {
        assert forall w | w in s.place :: w in At(s.place, Exited);
        assert At(s.place, Executing(i)) == {};
      }
    } else {
      NoWorkersNoDispatch(run, steps, |steps|);
    }
  }

  lemma {:induction false} NoWorkersNoDispatch(run: seq<Pool>, steps: seq<Step>, i: nat)
    requires IsRun(run, steps) && run[0] == Constructed({}) && i < |run|
    ensures run[i].dispatched == [] && run[i].done == {} && run[i].place == map[]
  {
    if i > 0 {
      NoWorkersNoDispatch(run, steps, i - 1);
      assert run[i] == After(run[i - 1], steps[i - 1]);
    }
  }

  // ---- what is accepted ----

  /** The tasks that enqueue was given before the pool began to stop, in order. */
  function Enqueued(steps: seq<Step>): seq<Task> {
    if steps == [] then []
    else
      var front, last := steps[..|steps| - 1], steps[|steps| - 1];
      Enqueued(front) + if last.Enqueue? && SetStop !in front then [last.task] else []
  }

  lemma StepAccepts(s: Pool, step: Step)
    requires Enabled(s, step)
    ensures var s' := After(s, step);
      && s'.accepted == s.accepted + (if step.Enqueue? && !s.stop then [step.task] else [])
      && s'.stop == (s.stop || step == SetStop) && s'.notified == (s.notified || step == NotifyAll)
  {
  }

  /** The flags follow the destructor, and exactly the tasks enqueued before it are accepted. */
  lemma {:induction false} AcceptedIsEnqueued(run: seq<Pool>, steps: seq<Step>, workers: set<Tid>)
    requires IsRun(run, steps) && run[0] == Constructed(workers)
    ensures var s := run[|steps|];
      s.accepted == Enqueued(steps) && (s.stop <==> SetStop in steps) && (s.notified <==> NotifyAll in steps)
    decreases |steps|
  {
    hide After, Enabled;
    var n := |steps|;
    if n > 0 {
      assert IsRun(run[..n], steps[..n - 1]);
      AcceptedIsEnqueued(run[..n], steps[..n - 1], workers);
      assert steps == steps[..n - 1] + [steps[n - 1]];
      StepAccepts(run[n - 1], steps[n - 1]);
    }
  }

  // ---- the destructor's joins ----

  predicate IsWorkerStep(step: Step) { step.Enter? || step.Finish? }

  function Rank(p: Place): nat {
    match p
    case Ready => 1
    case Signalled => 1
    case Executing(_) => 2
    case _ => 0
  }

  /** How many more steps the workers can take once nothing is accepted any more. */
  function Remaining(s: Pool): nat {
    3 * |s.tasks| + |At(s.place, Ready)| + |At(s.place, Signalled)| + 2 * |Busy(s.place)|
  }

  lemma RemainingMoved(s: Pool, s': Pool, w: Tid, to: Place)
    requires w in s.place && s'.place == s.place[w := to]
    ensures Remaining(s') == Remaining(s) - Rank(s.place[w]) + Rank(to) - 3 * |s.tasks| + 3 * |s'.tasks|
  {
    Moved(s.place, w, to, Ready);
    Moved(s.place, w, to, Signalled);
    BusyMoved(s.place, w, to);
    hide At, Busy;
  }

  lemma SameRemaining(s: Pool, s': Pool)
    requires s'.place == s.place && s'.tasks == s.tasks
    ensures Remaining(s') == Remaining(s)
  {
  }

  lemma NotifiedStep(s: Pool, step: Step)
    requires Shutdown(s) && s.notified && Enabled(s, step)
    ensures var s' := After(s, step);
      && s'.notified
      && (if IsWorkerStep(step) then Remaining(s') < Remaining(s) else Remaining(s') == Remaining(s))
  {
    hide Remaining;
    match step
    case Enter(w) => RemainingMoved(s, After(s, step), w, After(s, step).place[w]);
    case Finish(w) => RemainingMoved(s, After(s, step), w, Ready);
    case Enqueue(task) => SameRemaining(s, After(s, step));
    case NotifyOne(wake) =>
      assert SignalWorkers(s.place, {}) == s.place;
      SameRemaining(s, After(s, step));
    case Spurious(w) =>
      if w in At(s.place, Asleep) { assert false; }
    case SetStop =>
    case NotifyAll =>
  }

  function WorkerSteps(steps: seq<Step>): nat {
    if steps == [] then 0
    else (if IsWorkerStep(steps[|steps| - 1]) then 1 else 0) + WorkerSteps(steps[..|steps| - 1])
  }

  lemma {:induction false} NotifiedRun(run: seq<Pool>, steps: seq<Step>)
    requires IsRun(run, steps) && Inv(run[0]) && run[0].notified
    ensures var s := run[|steps|];
      s.notified && Inv(s) && WorkerSteps(steps) + Remaining(s) <= Remaining(run[0])
    decreases |steps|
  {
    hide NoLostTask, Accounted, Shutdown, After, Enabled, Remaining;
    var n := |steps|;
    RunKeepsInv(run, steps, n);
    if n > 0 {
      assert IsRun(run[..n], steps[..n - 1]);
      NotifiedRun(run[..n], steps[..n - 1]);
      NotifiedStep(run[n - 1], steps[n - 1]);
    }
  }

  /** Left to themselves, the workers come to rest: they do not spin. */
  lemma {:induction false} WorkersComeToRest(run: seq<Pool>, steps: seq<Step>)
    requires IsRun(run, steps) && forall step | step in steps :: IsWorkerStep(step)
    ensures |steps| + Remaining(run[|steps|]) <= Remaining(run[0])
    decreases |steps|
  {
    hide Remaining;
    var n := |steps|;
    if n > 0 {
      assert IsRun(run[..n], steps[..n - 1]);
      assert forall step | step in steps[..n - 1] :: step in steps;
      WorkersComeToRest(run[..n], steps[..n - 1]);
      assert steps[n - 1] in steps;
      var w := steps[n - 1].w;
      assert Enabled(run[n - 1], steps[n - 1]) && run[n] == After(run[n - 1], steps[n - 1]);
      RemainingMoved(run[n - 1], run[n], w, run[n].place[w]);
    }
  }

  /**
   Once the destructor has notified, the workers take a bounded number of steps, and as
   long as one of them is left some worker can take one: if tasks terminate, so do the joins.
   */
  lemma JoinsComplete(run: seq<Pool>, steps: seq<Step>)
    requires IsRun(run, steps) && Inv(run[0]) && run[0].notified
    ensures var s := run[|steps|];
      && WorkerSteps(steps) <= Remaining(run[0])
      && (At(s.place, Exited) == s.place.Keys || exists step :: Enabled(s, step) && IsWorkerStep(step))
  {
    var s := run[|steps|];
    NotifiedRun(run, steps);
    if At(s.place, Exited) != s.place.Keys {
      assert At(s.place, Exited) <= s.place.Keys;
      var w :| w in s.place.Keys && w !in At(s.place, Exited);
      assert w !in At(s.place, Asleep) && w !in At(s.place, Looping);
      if s.place[w].Executing? {
        assert Enabled(s, Finish(w));
      } else {
        assert Enabled(s, Enter(w));
      }
    }
  }
}
