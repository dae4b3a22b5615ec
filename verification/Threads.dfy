/**
 Worker threads of both pools: where each one is, and what notifications do to them.
 */
module Threads {

  type Tid = nat
  type Task = nat

  /** Where a worker thread is. A lock-free test before each turn of the loop exists in one pool only. */
  datatype Place =
    | Looping                   // about to make that test
    | Ready                     // about to lock the mutex
    | Asleep                    // waiting on the condition variable
    | Signalled                 // taken off the condition variable, about to lock the mutex again
    | Executing(position: nat)  // running the task at that position of `dispatched`
    | Exited

  function At(place: map<Tid, Place>, p: Place): set<Tid> {
    set w | w in place && place[w] == p
  }

  function SignalWorkers(place: map<Tid, Place>, wake: set<Tid>): map<Tid, Place> {
    map w | w in place :: if w in wake then Signalled else place[w]
  }

  /** The sleepers a notification may wake. */
  predicate Wakes(wake: set<Tid>, sleepers: set<Tid>) {
    wake <= sleepers && (sleepers != {} ==> wake != {})
  }

  function Busy(place: map<Tid, Place>): set<Tid> {
    set w | w in place && place[w].Executing?
  }

  lemma MovedSet(place: map<Tid, Place>, w: Tid, to: Place, p: Place)
    requires w in place
    ensures At(place[w := to], p) == (At(place, p) - {w}) + (if to == p then {w} else {})
    ensures w in At(place, p) <==> place[w] == p
  {
  }

  lemma Moved(place: map<Tid, Place>, w: Tid, to: Place, p: Place)
    requires w in place
    ensures var place' := place[w := to];
      && At(place', p) == (At(place, p) - {w}) + (if to == p then {w} else {})
      && |At(place', p)| == |At(place, p)| - (if place[w] == p then 1 else 0) + (if to == p then 1 else 0)
  {
    hide At;
    MovedSet(place, w, to, p);
    var others := At(place, p) - {w};
    assert At(place, p) == if place[w] == p then others + {w} else others;
  }

  lemma MovedAwake(place: map<Tid, Place>, w: Tid, to: Place)
    requires w in place && to != Asleep
    ensures var place' := place[w := to];
      && At(place', Asleep) <= At(place, Asleep)
      && |At(place', Signalled)| == |At(place, Signalled)|
           - (if place[w] == Signalled then 1 else 0) + (if to == Signalled then 1 else 0)
  {
    Moved(place, w, to, Signalled);
  }

  lemma WorkersSignalled(place: map<Tid, Place>, wake: set<Tid>)
    requires wake <= At(place, Asleep)
    ensures var place' := SignalWorkers(place, wake);
      && place'.Keys == place.Keys
      && At(place', Asleep) == At(place, Asleep) - wake
      && At(place', Signalled) == At(place, Signalled) + wake
      && |At(place', Signalled)| == |At(place, Signalled)| + |wake|
      && (forall p: Place | p != Asleep && p != Signalled :: At(place', p) == At(place, p))
  {
    assert At(place, Signalled) !! wake;
  }

  lemma BusyMoved(place: map<Tid, Place>, w: Tid, to: Place)
    requires w in place
    ensures |Busy(place[w := to])|
      == |Busy(place)| - (if place[w].Executing? then 1 else 0) + (if to.Executing? then 1 else 0)
  {
    assert Busy(place[w := to]) == (Busy(place) - {w}) + (if to.Executing? then {w} else {});
  }

  lemma {:induction false} Within(a: set<Tid>, b: set<Tid>)
    requires a <= b
    ensures |a| <= |b|
    decreases a
  {
    if x :| x in a {
      Within(a - {x}, b - {x});
    }
  }

  // ---- the tasks ----

  /** Queue order is acceptance order, and each dispatched task is executing on one worker or done. */
  ghost predicate Accounted(place: map<Tid, Place>, queue: seq<Task>, accepted: seq<Task>,
          dispatched: seq<Task>, done: set<nat>) {
    && dispatched + queue == accepted
    && (forall i | i in done :: 0 <= i < |dispatched|)
    && (forall w | w in place && place[w].Executing? :: place[w].position < |dispatched| && place[w].position !in done)
    && (forall v, w | v in place && w in place && place[v].Executing? && place[w] == place[v] :: v == w)
    && (forall i: nat | i < |dispatched| && i !in done :: At(place, Executing(i)) != {})
  }

  lemma AccountedOffTask(place: map<Tid, Place>, w: Tid, to: Place, queue: seq<Task>, accepted: seq<Task>,
          dispatched: seq<Task>, done: set<nat>)
    requires Accounted(place, queue, accepted, dispatched, done)
    requires w in place && !place[w].Executing? && !to.Executing?
    ensures Accounted(place[w := to], queue, accepted, dispatched, done)
  {
    forall i: nat | i < |dispatched| && i !in done
      ensures At(place[w := to], Executing(i)) != {}
    {
      Moved(place, w, to, Executing(i));
    }
  }

  lemma AccountedAtTake(place: map<Tid, Place>, w: Tid, queue: seq<Task>, accepted: seq<Task>,
          dispatched: seq<Task>, done: set<nat>)
    requires Accounted(place, queue, accepted, dispatched, done)
    requires w in place && !place[w].Executing? && queue != []
    ensures Accounted(place[w := Executing(|dispatched|)], queue[1..], accepted, dispatched + [queue[0]], done)
  {
    var place' := place[w := Executing(|dispatched|)];
    forall i: nat | i < |dispatched| + 1 && i !in done
      ensures At(place', Executing(i)) != {}
    {
      Moved(place, w, place'[w], Executing(i));
      assert i == |dispatched| ==> w in At(place', Executing(i));
    }
  }

  lemma AccountedAtFinish(place: map<Tid, Place>, w: Tid, to: Place, queue: seq<Task>, accepted: seq<Task>,
          dispatched: seq<Task>, done: set<nat>)
    requires Accounted(place, queue, accepted, dispatched, done)
    requires w in place && place[w].Executing? && !to.Executing?
    ensures Accounted(place[w := to], queue, accepted, dispatched, done + {place[w].position})
  {
    forall i: nat | i < |dispatched| && i !in done + {place[w].position}
      ensures At(place[w := to], Executing(i)) != {}
    {
      Moved(place, w, to, Executing(i));
    }
  }

  lemma AccountedAtSignal(place: map<Tid, Place>, wake: set<Tid>, queue: seq<Task>, accepted: seq<Task>,
          dispatched: seq<Task>, done: set<nat>)
    requires Accounted(place, queue, accepted, dispatched, done)
    requires wake <= At(place, Asleep)
    ensures Accounted(SignalWorkers(place, wake), queue, accepted, dispatched, done)
  {
    WorkersSignalled(place, wake);
  }

  lemma AccountedAtPush(place: map<Tid, Place>, wake: set<Tid>, task: Task, queue: seq<Task>,
          accepted: seq<Task>, dispatched: seq<Task>, done: set<nat>)
    requires Accounted(place, queue, accepted, dispatched, done)
    requires wake <= At(place, Asleep)
    ensures Accounted(SignalWorkers(place, wake), queue + [task], accepted + [task], dispatched, done)
    ensures Accounted(place, queue + [task], accepted + [task], dispatched, done)
  {
    AccountedAtSignal(place, wake, queue, accepted, dispatched, done);
  }
}
