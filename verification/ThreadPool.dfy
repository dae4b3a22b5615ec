/**
 The pool object of main/ThreadPool.h. Each method is what happens between two points
 where another thread can run; `wake` is the choice the condition variable makes.
 */
module ThreadPoolObject {
  import opened DrainingPool
  import opened Threads

  class ThreadPool {
    var stop: bool
    var notified: bool
    var tasks: seq<Task>
    var place: map<Tid, Place>
    var pending: nat
    var accepted: seq<Task>
    var dispatched: seq<Task>
    var done: set<nat>

    function State(): Pool
      reads this
    {
      Pool(stop, notified, tasks, place, pending, accepted, dispatched, done)
    }

    constructor (workers: set<Tid>)
      ensures State() == Constructed(workers) && Inv(State())
    {
      stop, notified, tasks, pending := false, false, [], 0;
      place := map w | w in workers :: Ready;
      accepted, dispatched, done := [], [], {};
      new;
      ConstructedInv(workers);
    }

    /** A worker's turn under the mutex: it waits, leaves, or pops the first task. */
    method EnterQueue(w: Tid)
      requires Inv(State()) && Enabled(State(), Enter(w))
      modifies this
      ensures State() == After(old(State()), Enter(w)) && Inv(State())
    {
      StepKeepsInv(State(), Enter(w));
      if !stop && tasks == [] {
        place := place[w := Asleep];
      } else if stop && tasks == [] {
        place := place[w := Exited];
      } else {
        var task := tasks[0];
        tasks := tasks[1..];
        place := place[w := Executing(|dispatched|)];
        dispatched := dispatched + [task];
      }
    }

    method FinishTask(w: Tid)
      requires Inv(State()) && Enabled(State(), Finish(w))
      modifies this
      ensures State() == After(old(State()), Finish(w)) && Inv(State())
    {
      StepKeepsInv(State(), Finish(w));
      done := done + {place[w].position};
      place := place[w := Ready];
    }

    /** The locked part of `enqueue`; it throws, and changes nothing, once the pool is stopping. */
    method EnqueueTask(task: Task) returns (thrown: bool)
      requires Inv(State())
      modifies this
      ensures State() == After(old(State()), Enqueue(task)) && Inv(State())
      ensures thrown <==> old(stop)
    {
      StepKeepsInv(State(), Enqueue(task));
      thrown := stop;
      if !stop {
        tasks, accepted := tasks + [task], accepted + [task];
        pending := pending + 1;
      }
    }

    /** The notification that `enqueue` sends after it has unlocked. */
    method NotifyAWorker(wake: set<Tid>)
      requires Inv(State()) && Enabled(State(), NotifyOne(wake))
      modifies this
      ensures State() == After(old(State()), NotifyOne(wake)) && Inv(State())
    {
      StepKeepsInv(State(), NotifyOne(wake));
      place := SignalWorkers(place, wake);
      pending := pending - 1;
    }

    /** The destructor, up to its joins: the locked part and the notification outside the lock. */
    method RequestStop()
      requires Inv(State()) && !stop
      modifies this
      ensures State() == After(old(State()), SetStop) && Inv(State())
    {
      StepKeepsInv(State(), SetStop);
      stop := true;
    }

    method NotifyAllWorkers()
      requires Inv(State()) && stop && !notified
      modifies this
      ensures State() == After(old(State()), NotifyAll) && Inv(State())
    {
      StepKeepsInv(State(), NotifyAll);
      place := SignalWorkers(place, At(place, Asleep));
      notified := true;
    }
  }
}
