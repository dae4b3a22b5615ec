/** What the pool owes its callers: each call of `run` queues the task it was given, once. */
module PoolCallers {
  import opened Threads
  import opened BoundedPool

  // ---- one call ----

  lemma StepKeepsWaitersTask(s: Pool, step: Step, p: Tid)
    requires Enabled(s, step) && p in s.waiting && p in After(s, step).waiting
    ensures After(s, step).waiting[p].task == s.waiting[p].task
  {
  }

  lemma CallBegins(s: Pool, step: Step)
    requires Enabled(s, step) && step.Submit?
    ensures var s' := After(s, step);
      if step.p in s'.waiting then s'.waiting[step.p].task == step.task && s'.accepted == s.accepted
      else s'.accepted == s.accepted + [step.task]
  {
  }

  lemma CallEnds(s: Pool, step: Step, p: Tid)
    requires Enabled(s, step) && p in s.waiting && p !in After(s, step).waiting
    ensures After(s, step).accepted == s.accepted + [s.waiting[p].task]
  {
  }

  lemma {:induction false} WaitsWithItsTask(run: seq<Pool>, steps: seq<Step>, i: nat, k: nat)
    requires IsRun(run, steps) && i < k < |run| && steps[i].Submit?
    requires forall l | i < l <= k :: steps[i].p in run[l].waiting
    ensures run[k].waiting[steps[i].p].task == steps[i].task
    decreases k
  {
    hide After, Enabled;
    if k == i + 1 {
      CallBegins(run[i], steps[i]);
    } else {
      WaitsWithItsTask(run, steps, i, k - 1);
      assert steps[i].p in run[k - 1].waiting && steps[i].p in run[k].waiting;
      StepKeepsWaitersTask(run[k - 1], steps[k - 1], steps[i].p);
    }
  }

  /**
   However long a caller of `run` has to wait, the step that lets it return adds its own task
   to the accepted ones - also when it never waits, and when it runs the task itself because
   there are no workers.
   */
  lemma CallerQueuesItsTask(run: seq<Pool>, steps: seq<Step>, i: nat, j: nat)
    requires IsRun(run, steps) && i < j < |run| && steps[i].Submit?
    requires forall k | i < k < j :: steps[i].p in run[k].waiting
    requires steps[i].p !in run[j].waiting
    ensures run[j].accepted == run[j - 1].accepted + [steps[i].task]
  {
    hide After, Enabled;
    if j == i + 1 {
      CallBegins(run[i], steps[i]);
    } else {
      WaitsWithItsTask(run, steps, i, j - 1);
      CallEnds(run[j - 1], steps[j - 1], steps[i].p);
    }
  }

  // ---- all calls together ----

  function TasksWaiting(waiting: map<Tid, Waiter>): map<Tid, Task> {
    map p | p in waiting :: waiting[p].task
  }

  ghost function TasksIn(tasks: map<Tid, Task>): multiset<Task>
    decreases |tasks|
  {
    if tasks == map[] then multiset{}
    else
      var p :| p in tasks;
      TasksIn(tasks - {p}) + multiset{tasks[p]}
  }

  lemma SomeTaskLess(tasks: map<Tid, Task>) returns (q: Tid)
    requires tasks != map[]
    ensures q in tasks && TasksIn(tasks) == TasksIn(tasks - {q}) + multiset{tasks[q]}
  {
    q :| q in tasks && TasksIn(tasks) == TasksIn(tasks - {q}) + multiset{tasks[q]};
  }

  lemma {:induction false} OneTaskLess(tasks: map<Tid, Task>, p: Tid)
    requires p in tasks
    ensures TasksIn(tasks) == TasksIn(tasks - {p}) + multiset{tasks[p]}
    decreases |tasks|
  {
    hide TasksIn;
    var q := SomeTaskLess(tasks);
    if q != p {
      assert (tasks - {q}).Keys == tasks.Keys - {q} && (tasks - {p}).Keys == tasks.Keys - {p};
      OneTaskLess(tasks - {q}, p);
      OneTaskLess(tasks - {p}, q);
      assert tasks - {q} - {p} == tasks - {p} - {q};
    }
  }

  lemma OneTaskMore(tasks: map<Tid, Task>, p: Tid, task: Task)
    requires p !in tasks
    ensures TasksIn(tasks[p := task]) == TasksIn(tasks) + multiset{task}
  {
    OneTaskLess(tasks[p := task], p);
    assert tasks[p := task] - {p} == tasks;
  }

  /** The tasks of the calls of `run`, in the order of the calls. */
  function Submitted(steps: seq<Step>): seq<Task> {
    if steps == [] then []
    else
      var last := steps[|steps| - 1];
      Submitted(steps[..|steps| - 1]) + if last.Submit? then [last.task] else []
  }

  /** The tasks accepted and those that still wait. */
  ghost function Known(s: Pool): multiset<Task> {
    multiset(s.accepted) + TasksIn(TasksWaiting(s.waiting))
  }

  lemma SignalKeepsTasks(waiting: map<Tid, Waiter>, wake: set<Tid>)
    ensures TasksWaiting(SignalProducers(waiting, wake)) == TasksWaiting(waiting)
  {
  }

  lemma RunKnows(s: Pool, p: Tid, task: Task, wake: set<Tid>)
    requires p in s.waiting ==> s.waiting[p].task == task
    ensures Known(AfterRun(s, p, task, wake)) == Known(s) + if p in s.waiting then multiset{} else multiset{task}
  {
    hide TasksIn, SignalWorkers;
    var before, after := TasksWaiting(s.waiting), TasksWaiting(AfterRun(s, p, task, wake).waiting);
    if IsFull(s) {
      assert after == before[p := task];
      if p in s.waiting {
        assert after == before;
      } else {
        OneTaskMore(before, p, task);
      }
    } else if p in s.waiting {
      assert after == before - {p};
      OneTaskLess(before, p);
    } else {
      assert after == before;
    }
  }

  lemma SameCallersKnown(s: Pool, s': Pool)
    requires s'.accepted == s.accepted && TasksWaiting(s'.waiting) == TasksWaiting(s.waiting)
    ensures Known(s') == Known(s)
  {
  }

  lemma StepKnows(s: Pool, step: Step)
    requires Enabled(s, step)
    ensures Known(After(s, step)) == Known(s) + if step.Submit? then multiset{step.task} else multiset{}
  {
    hide TasksIn, AfterRun, Known;
    match step
    case Submit(p, task, wake) => SubmitKnows(s, p, task, wake);
    case Retry(p, wake) => RunKnows(s, p, s.waiting[p].task, wake);
    case Take(w, wake) =>
      SignalKeepsTasks(s.waiting, wake);
      SameCallersKnown(s, After(s, step));
    case WakeProducer(p) =>
      assert TasksWaiting(After(s, step).waiting) == TasksWaiting(s.waiting);
      SameCallersKnown(s, After(s, step));
    case _ => SameCallersKnown(s, After(s, step));
  }

  lemma SubmitKnows(s: Pool, p: Tid, task: Task, wake: set<Tid>)
    requires Enabled(s, Submit(p, task, wake))
    ensures Known(After(s, Submit(p, task, wake))) == Known(s) + multiset{task}
  {
    RunKnows(s, p, task, wake);
    hide TasksIn, AfterRun, TasksWaiting;
  }

  /** Over every run, the tasks accepted and those that still wait are exactly those submitted. */
  lemma {:induction false} EveryTaskIsKnown(run: seq<Pool>, steps: seq<Step>, max: nat, workers: set<Tid>)
    requires IsRun(run, steps) && run[0] == Started(max, workers)
    ensures Known(run[|steps|]) == multiset(Submitted(steps))
    decreases |steps|
  {
    hide After, Enabled, Known;
    var n := |steps|;
    if n == 0 {
      NothingKnown(max, workers);
    } else {
      assert IsRun(run[..n], steps[..n - 1]);
      EveryTaskIsKnown(run[..n], steps[..n - 1], max, workers);
      StepKnows(run[n - 1], steps[n - 1]);
    }
  }

  lemma NothingKnown(max: nat, workers: set<Tid>)
    ensures Known(Started(max, workers)) == multiset{}
  {
    assert TasksWaiting(map[]) == map[];
  }

  /** The pool runs until `stop` is called, and from then on not. */
  lemma {:induction false} RunsUntilStop(run: seq<Pool>, steps: seq<Step>, max: nat, workers: set<Tid>)
    requires IsRun(run, steps) && run[0] == Started(max, workers)
    ensures run[|steps|].running <==> Stop !in steps
    decreases |steps|
  {
    var n := |steps|;
    if n > 0 {
      assert IsRun(run[..n], steps[..n - 1]);
      RunsUntilStop(run[..n], steps[..n - 1], max, workers);
      assert steps == steps[..n - 1] + [steps[n - 1]];
      assert run[n] == After(run[n - 1], steps[n - 1]);
    }
  }
}
