/**
 What `MThreadPool::stop` loses, exactly. The pool does not drain: after `stop` each worker
 that is inside `take`, or about to enter it, takes one more task, and no other worker takes any.
 */
module PoolShutdown {
  import opened Threads
  import opened BoundedPool

  /** The workers that can still take a task once the pool has stopped. */
  function Takers(place: map<Tid, Place>): nat {
    |At(place, Ready)| + |At(place, Signalled)|
  }

  function TakerAt(p: Place): nat { if MayTake(p) then 1 else 0 }

  /** The pool has stopped and no worker will take a task any more: each has exited, is executing or about to exit. */
  ghost predicate TakenLast(s: Pool) { !s.running && Takers(s.place) == 0 }

  /** In particular, when all workers have exited. */
  lemma ExitedHaveTakenLast(s: Pool)
    requires Inv(s) && s.place != map[] && At(s.place, Exited) == s.place.Keys
    ensures TakenLast(s)
  {
    assert forall w | w in s.place :: w in At(s.place, Exited);
    assert At(s.place, Ready) == {} && At(s.place, Signalled) == {};
  }

  lemma TakersMoved(place: map<Tid, Place>, w: Tid, to: Place)
    requires w in place
    ensures Takers(place[w := to]) == Takers(place) - TakerAt(place[w]) + TakerAt(to)
  {
    Moved(place, w, to, Ready);
    Moved(place, w, to, Signalled);
    hide At;
  }

  // ---- dropping ----

  /** What a step of a stopped pool may do to the accepted and the dispatched tasks. */
  ghost predicate Progress(s: Pool, s': Pool) {
    && s.accepted <= s'.accepted
    && 0 <= |s'.dispatched| - |s.dispatched| <= Takers(s.place) - Takers(s'.place)
    && (|s'.dispatched| - |s.dispatched| < Takers(s.place) - Takers(s'.place) ==> |s.accepted| <= |s'.dispatched|)
  }

  lemma StoppedStepProgresses(s: Pool, step: Step)
    requires Inv(s) && !s.running && s.place != map[] && Enabled(s, step)
    ensures Progress(s, After(s, step))
  {
    hide NoLostTask, NoLostSlot, Bounded, Takers;
    match step
    case Test(w) => TakersMoved(s.place, w, Exited);
    case Take(w, wake) => TakersMoved(s.place, w, After(s, step).place[w]);
    case Finish(w) => TakersMoved(s.place, w, Looping);
    case _ => StoppedStep(s, step);
  }

  lemma ProgressAdds(r: Pool, s: Pool, s': Pool)
    requires Progress(r, s) && Progress(s, s')
    ensures Progress(r, s')
  {
    hide Takers;
  }

  lemma {:induction false} StoppedRunProgresses(run: seq<Pool>, steps: seq<Step>)
    requires IsRun(run, steps) && Inv(run[0]) && !run[0].running && run[0].place != map[]
    ensures Progress(run[0], run[|steps|])
    decreases |steps|
  {
    hide Progress, Inv, After, Enabled;
    var n := |steps|;
    if n == 0 {
      NoProgress(run[0]);
    } else {
      assert IsRun(run[..n], steps[..n - 1]);
      StoppedRunProgresses(run[..n], steps[..n - 1]);
      StoppedRun(run[..n], steps[..n - 1]);
      MaxIsConstant(run, steps, n - 1);
      assert run[n - 1].place != map[];
      StoppedStepProgresses(run[n - 1], steps[n - 1]);
      ProgressAdds(run[0], run[n - 1], run[n]);
    }
  }

  lemma NoProgress(s: Pool)
    ensures Progress(s, s)
  {
  }

  lemma {:induction false} AcceptedGrows(run: seq<Pool>, steps: seq<Step>, i: nat)
    requires IsRun(run, steps) && i < |run|
    ensures run[0].accepted <= run[i].accepted
  {
    if i > 0 {
      AcceptedGrows(run, steps, i - 1);
      assert run[i] == After(run[i - 1], steps[i - 1]);
    }
  }

  /**
   Every task accepted before the pool stopped is dispatched by the time no worker takes any
   more, if and only if the queue was no longer than the workers inside `take` were many - in
   whatever order they run, and whatever is submitted in the meantime.
   */
  lemma StopDropsNothingIff(run: seq<Pool>, steps: seq<Step>)
    requires IsRun(run, steps) && Inv(run[0]) && !run[0].running && TakenLast(run[|steps|])
    ensures run[0].accepted <= run[|steps|].dispatched <==> |run[0].queue| <= Takers(run[0].place)
  {
    var s, e := run[0], run[|steps|];
    RunKeepsInv(run, steps, |steps|);
    AcceptedGrows(run, steps, |steps|);
    assert s.dispatched + s.queue == s.accepted && e.dispatched + e.queue == e.accepted;
    assert s.accepted <= e.dispatched <==> |s.accepted| <= |e.dispatched|;
    if s.place == map[] {
      MaxIsConstant(run, steps, |steps|);
      assert e.place == map[] && e.queue == [] && s.queue == [];
    } else {
      StoppedRunProgresses(run, steps);
    }
    hide Inv, IsRun, Takers;
  }

  /** The same, read off the state in which `stop` is called: it signals every worker that sleeps. */
  lemma StopDropsNothingFrom(run: seq<Pool>, steps: seq<Step>)
    requires IsRun(run, steps) && Inv(run[0]) && |steps| > 0 && steps[0] == Stop && TakenLast(run[|steps|])
    ensures run[0].accepted <= run[|steps|].dispatched
      <==> |run[0].queue| <= Takers(run[0].place) + |At(run[0].place, Asleep)|
  {
    hide Inv, TakenLast;
    var s := run[0];
    StepKeepsInv(s, Stop);
    WorkersSignalled(s.place, At(s.place, Asleep));
    assert run[1] == After(s, Stop);
    assert IsRun(run[1..], steps[1..]);
    StopDropsNothingIff(run[1..], steps[1..]);
  }

  // ---- stranding ----

  lemma LastTakenStep(s: Pool, step: Step)
    requires Inv(s) && TakenLast(s) && Enabled(s, step)
    ensures TakenLast(After(s, step)) && After(s, step).max == s.max && !step.Take?
    ensures s.place != map[] ==> s.queue <= After(s, step).queue
  {
    hide Takers;
    match step
    case Test(w) => TakersMoved(s.place, w, Exited);
    case Take(w, wake) => NoTaker(s.place, w);
    case Finish(w) => TakersMoved(s.place, w, Looping);
    case _ => StoppedStep(s, step);
  }

  lemma NoTaker(place: map<Tid, Place>, w: Tid)
    requires Takers(place) == 0 && w in place
    ensures !MayTake(place[w])
  {
    assert w !in At(place, Ready) && w !in At(place, Signalled);
  }

  /** A full queue stays full, and whoever waits for it goes on waiting. */
  lemma {:induction false} FullForEver(run: seq<Pool>, steps: seq<Step>, p: Tid, i: nat)
    requires IsRun(run, steps) && Inv(run[0]) && TakenLast(run[0]) && i < |run|
    requires IsFull(run[0]) && p in run[0].waiting
    ensures IsFull(run[i]) && p in run[i].waiting && TakenLast(run[i])
  {
    hide Inv, TakenLast;
    if i > 0 {
      FullForEver(run, steps, p, i - 1);
      RunKeepsInv(run, steps, i - 1);
      assert run[i - 1].place != map[] by { WaitingMeansWorkers(run[i - 1], p); }
      LastTakenStep(run[i - 1], steps[i - 1]);
    }
  }

  lemma WaitingMeansWorkers(s: Pool, p: Tid)
    requires Inv(s) && p in s.waiting
    ensures s.place != map[]
  {
  }

  lemma SleeperStays(s: Pool, step: Step, p: Tid)
    requires Enabled(s, step) && !step.Take? && !step.WakeProducer?
    requires p in s.waiting && s.waiting[p].Blocked?
    ensures p in After(s, step).waiting && After(s, step).waiting[p] == s.waiting[p]
  {
  }

  /** A producer that sleeps is woken by nobody. */
  lemma {:induction false} AsleepForEver(run: seq<Pool>, steps: seq<Step>, p: Tid, i: nat)
    requires IsRun(run, steps) && Inv(run[0]) && TakenLast(run[0]) && i < |run|
    requires p in run[0].waiting && run[0].waiting[p].Blocked?
    requires forall step | step in steps :: !step.WakeProducer?
    ensures p in run[i].waiting && run[i].waiting[p] == run[0].waiting[p] && TakenLast(run[i])
  {
    hide Inv, TakenLast, After, Enabled;
    if i > 0 {
      AsleepForEver(run, steps, p, i - 1);
      RunKeepsInv(run, steps, i - 1);
      LastTakenStep(run[i - 1], steps[i - 1]);
      assert steps[i - 1] in steps;
      SleeperStays(run[i - 1], steps[i - 1], p);
    }
  }

  /** Some run takes producer `p` out of its wait; with `spurious`, it may wake for no reason. */
  ghost predicate CanGetIn(s: Pool, p: Tid, spurious: bool) {
    exists run: seq<Pool>, steps: seq<Step> ::
      && IsRun(run, steps) && run[0] == s && p !in run[|steps|].waiting
      && (spurious || forall step | step in steps :: !step.WakeProducer?)
  }

  lemma WokenGetsIn(s: Pool, p: Tid)
    requires p in s.waiting && s.waiting[p].Woken? && !IsFull(s)
    ensures CanGetIn(s, p, false)
  {
    var retry := Retry(p, At(s.place, Asleep));
    var run, steps := [s, After(s, retry)], [retry];
    assert IsRun(run, steps) && p !in run[1].waiting;
  }

  lemma BlockedGetsIn(s: Pool, p: Tid)
    requires p in s.waiting && s.waiting[p].Blocked? && !IsFull(s)
    ensures CanGetIn(s, p, true)
  {
    var woken := After(s, WakeProducer(p));
    var retry := Retry(p, At(s.place, Asleep));
    var run, steps := [s, woken, After(woken, retry)], [WakeProducer(p), retry];
    assert IsRun(run, steps) && p !in run[2].waiting;
  }

  /**
   Once the workers have taken their last tasks, a waiting producer, which may itself be a task
   on one of them, can still return from `run` if and only if the queue is not full; and
   without a spurious wakeup, only if it was awake already.
   */
  lemma ProducerIsStrandedIff(s: Pool, p: Tid)
    requires Inv(s) && TakenLast(s) && p in s.waiting
    ensures CanGetIn(s, p, true) <==> !IsFull(s)
    ensures CanGetIn(s, p, false) <==> !IsFull(s) && s.waiting[p].Woken?
  {
    hide Inv, TakenLast, IsFull;
    forall run: seq<Pool>, steps: seq<Step> | IsRun(run, steps) && run[0] == s && p !in run[|steps|].waiting
      ensures !IsFull(s)
      ensures (forall step | step in steps :: !step.WakeProducer?) ==> s.waiting[p].Woken?
    {
      if IsFull(s) {
        FullForEver(run, steps, p, |steps|);
        assert false;
      }
      if s.waiting[p].Blocked? && forall step | step in steps :: !step.WakeProducer? {
        AsleepForEver(run, steps, p, |steps|);
        assert false;
      }
    }
    if !IsFull(s) {
      if s.waiting[p].Woken? {
        WokenGetsIn(s, p);
      } else {
        BlockedGetsIn(s, p);
      }
    }
  }
}
