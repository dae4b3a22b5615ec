/**
 The pool object of base/ThreadPool.cpp. Each method is one critical section, from taking
 the mutex to releasing it; `wake` is the choice the condition variable makes when it is
 notified.
 */
module MThreadPoolObject {
  import opened BoundedPool
  import opened Threads

  class MThreadPool {
    const maxQueueSize: nat
    var running: bool
    var queue: seq<Task>
    var place: map<Tid, Place>
    var waiting: map<Tid, Waiter>
    var accepted: seq<Task>
    var dispatched: seq<Task>
    var done: set<nat>

    function State(): Pool
      reads this
    {
      Pool(maxQueueSize, running, queue, place, waiting, accepted, dispatched, done)
    }

    /** `start`: the threads exist and are about to enter their loops. */
    constructor (max: nat, workers: set<Tid>)
      ensures State() == Started(max, workers) && Inv(State())
    {
      maxQueueSize, running, queue := max, true, [];
      place := map w | w in workers :: Looping;
      waiting, accepted, dispatched, done := map[], [], [], {};
      new;
      StartedInv(max, workers);
    }

    predicate IsFull()
      reads this
    {
      maxQueueSize > 0 && |queue| >= maxQueueSize
    }

    /** The test at the head of `runInThread`'s loop, made without the mutex. */
    method TestRunning(w: Tid)
      requires Inv(State()) && Enabled(State(), Test(w))
      modifies this
      ensures State() == After(old(State()), Test(w)) && Inv(State())
    {
      StepKeepsInv(State(), Test(w));
      if running {
        place := place[w := Ready];
      } else {
        place := place[w := Exited];
      }
    }

    method TakeTask(w: Tid, wake: set<Tid>)
      requires Inv(State()) && Enabled(State(), Take(w, wake))
      modifies this
      ensures State() == After(old(State()), Take(w, wake)) && Inv(State())
    {
      StepKeepsInv(State(), Take(w, wake));
      if queue == [] && running {
        place := place[w := Asleep];
      } else if queue != [] {
        var task := queue[0];
        queue := queue[1..];
        if maxQueueSize > 0 {
          waiting := SignalProducers(waiting, wake);
        }
        place := place[w := Executing(|dispatched|)];
        dispatched := dispatched + [task];
      } else {
        place := place[w := Looping];
      }
    }

    method FinishTask(w: Tid)
      requires Inv(State()) && Enabled(State(), Finish(w))
      modifies this
      ensures State() == After(old(State()), Finish(w)) && Inv(State())
    {
      StepKeepsInv(State(), Finish(w));
      done := done + {place[w].position};
      place := place[w := Looping];
    }

    /** `run`, from a caller that does not wait yet. */
    method RunTask(p: Tid, task: Task, wake: set<Tid>)
      requires Inv(State()) && Enabled(State(), Submit(p, task, wake))
      modifies this
      ensures State() == After(old(State()), Submit(p, task, wake)) && Inv(State())
    {
      StepKeepsInv(State(), Submit(p, task, wake));
      if place == map[] {
        accepted, done := accepted + [task], done + {|dispatched|};
        dispatched := dispatched + [task];
      } else {
        Enqueue(p, task, wake);
      }
    }

    /** `run`, once a waiting caller has the mutex again. */
    method RetryRun(p: Tid, wake: set<Tid>)
      requires Inv(State()) && Enabled(State(), Retry(p, wake))
      modifies this
      ensures State() == After(old(State()), Retry(p, wake)) && Inv(State())
    {
      StepKeepsInv(State(), Retry(p, wake));
      Enqueue(p, waiting[p].task, wake);
    }

    method Enqueue(p: Tid, task: Task, wake: set<Tid>)
      modifies this
      ensures State() == AfterRun(old(State()), p, task, wake)
    {
      if IsFull() {
        waiting := waiting[p := Blocked(task)];
      } else {
        queue := queue + [task];
        accepted := accepted + [task];
        place := SignalWorkers(place, wake);
        waiting := waiting - {p};
      }
    }

    /** The locked part of `stop`; the joins follow. */
    method StopRunning()
      requires Inv(State())
      modifies this
      ensures State() == After(old(State()), Stop) && Inv(State())
    {
      StepKeepsInv(State(), Stop);
      running := false;
      place := SignalWorkers(place, At(place, Asleep));
    }
  }
}
