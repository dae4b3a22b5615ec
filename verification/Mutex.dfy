/**
 The mutex and condition variable of base/Mutex.h, in steps as small as the code's own:
 taking the pthread mutex and recording the holder are two steps, and so are clearing the
 holder and letting the mutex go, whether by unlocking or by waiting.
 */
module Mutex {

  type Tid = nat

  const NOBODY: Tid := 0

  datatype Place =
    | Outside
    | Entered                   // has the pthread mutex, holder_ not assigned yet
    | Inside                    // the code a guard protects
    | Leaving                   // holder_ cleared, about to unlock
    | Unassigned                // holder_ cleared, about to wait
    | Asleep
    | Awake                     // notified or woken for no reason, needs the mutex again

  datatype State = State(owner: Tid, holder: Tid, place: map<Tid, Place>)

  datatype Step =
    | Lock(t: Tid)
    | AssignHolder(t: Tid)
    | UnassignHolder(t: Tid)
    | Unlock(t: Tid)
    | BeginWait(t: Tid)
    | Sleep(t: Tid)
    | Wake(t: Tid)

  predicate Owning(p: Place) {
    p.Entered? || p.Inside? || p.Leaving? || p.Unassigned?
  }

  predicate Enabled(s: State, step: Step) {
    step.t in s.place && step.t != NOBODY &&
    var p := s.place[step.t];
    match step
    case Lock(t) => (p.Outside? || p.Awake?) && s.owner == NOBODY
    case AssignHolder(t) => p.Entered?
    case UnassignHolder(t) => p.Inside?
    case Unlock(t) => p.Leaving?
    case BeginWait(t) => p.Inside?
    case Sleep(t) => p.Unassigned?
    case Wake(t) => p.Asleep?
  }

  function After(s: State, step: Step): State
    requires Enabled(s, step)
  {
    match step
    case Lock(t) => s.(owner := t, place := s.place[t := Entered])
    case AssignHolder(t) => s.(holder := t, place := s.place[t := Inside])
    case UnassignHolder(t) => s.(holder := NOBODY, place := s.place[t := Leaving])
    case Unlock(t) => s.(owner := NOBODY, place := s.place[t := Outside])
    case BeginWait(t) => s.(holder := NOBODY, place := s.place[t := Unassigned])
    case Sleep(t) => s.(owner := NOBODY, place := s.place[t := Asleep])
    case Wake(t) => s.(place := s.place[t := Awake])
  }

  function Created(threads: set<Tid>): State {
    State(NOBODY, NOBODY, map t | t in threads :: Outside)
  }

  ghost predicate Inv(s: State) {
    && (forall t | t in s.place && Owning(s.place[t]) :: t != NOBODY && s.owner == t)
    && (s.owner != NOBODY ==> s.owner in s.place && Owning(s.place[s.owner]))
    && (forall t | t in s.place && s.place[t].Inside? :: s.holder == t)
    && (s.holder != NOBODY ==> s.holder in s.place && s.place[s.holder].Inside?)
  }

  lemma StepKeepsInv(s: State, step: Step)
    requires Inv(s) && Enabled(s, step)
    ensures Inv(After(s, step))
  {
  }

  ghost predicate IsRun(run: seq<State>, steps: seq<Step>) {
    && |run| == |steps| + 1
    && forall i | 0 <= i < |steps| :: Enabled(run[i], steps[i]) && run[i + 1] == After(run[i], steps[i])
  }

  lemma {:induction false} RunKeepsInv(run: seq<State>, steps: seq<Step>, i: nat)
    requires IsRun(run, steps) && Inv(run[0]) && i < |run|
    ensures Inv(run[i]) && run[i].place.Keys == run[0].place.Keys
  {
    if i > 0 {
      RunKeepsInv(run, steps, i - 1);
      StepKeepsInv(run[i - 1], steps[i - 1]);
    }
  }

  /**
   In every run `isLockedByThisThread` answers true exactly to the thread that is inside a
   guard and not waiting, however many have waited and come back; at most one is; and the
   destructor's assertion holds exactly when none is.
   */
  lemma HolderIsExact(run: seq<State>, steps: seq<Step>, i: nat, threads: set<Tid>)
    requires IsRun(run, steps) && run[0] == Created(threads) && i < |run|
    ensures var s := run[i];
      && s.place.Keys == threads
      && (forall t | t in s.place && t != NOBODY :: s.holder == t <==> s.place[t].Inside?)
      && (forall t, u | t in s.place && u in s.place && Owning(s.place[t]) && Owning(s.place[u]) :: t == u)
      && (s.holder == NOBODY <==> forall t | t in s.place :: !s.place[t].Inside?)
  {
    RunKeepsInv(run, steps, i);
    assert forall t | t in run[i].place :: run[i].place[t].Inside? ==> Owning(run[i].place[t]);
  }

  /** A thread that waits lets the mutex go: whoever wants it can have it. */
  lemma WaitingFreesTheMutex(run: seq<State>, steps: seq<Step>, i: nat, threads: set<Tid>, t: Tid)
    requires IsRun(run, steps) && run[0] == Created(threads) && i < |run|
    requires t in run[i].place && t != NOBODY && (run[i].place[t].Outside? || run[i].place[t].Awake?)
    ensures Enabled(run[i], Lock(t)) <==> forall u | u in run[i].place :: !Owning(run[i].place[u])
  {
    RunKeepsInv(run, steps, i);
  }
}

/** The mutex object: its two fields, and what the calls of its methods do to them. */
module MutexObject {
  import opened Mutex

  class GuardedMutex {
    var owner: Tid              // who has the pthread mutex
    var holder: Tid             // holder_
    ghost var place: map<Tid, Place>

    ghost function Value(): State
      reads this
    {
      State(owner, holder, place)
    }

    constructor (threads: set<Tid>)
      ensures Value() == Created(threads) && Inv(Value())
    {
      owner, holder := NOBODY, NOBODY;
      place := map t | t in threads :: Outside;
    }

    /** pthread_mutex_lock, once it returns; or the end of pthread_cond_wait. */
    method PthreadLock(t: Tid)
      requires Inv(Value()) && Enabled(Value(), Lock(t))
      modifies this
      ensures Value() == After(old(Value()), Lock(t)) && Inv(Value())
    {
      StepKeepsInv(Value(), Lock(t));
      owner := t;
      place := place[t := Entered];
    }

    /** The rest of `lock`, or the destructor of `UnassignGuard`. */
    method Assign(t: Tid)
      requires Inv(Value()) && Enabled(Value(), AssignHolder(t))
      modifies this
      ensures Value() == After(old(Value()), AssignHolder(t)) && Inv(Value()) && holder == t
    {
      StepKeepsInv(Value(), AssignHolder(t));
      holder := t;
      place := place[t := Inside];
    }

    /** The beginning of `unlock`. */
    method Unassign(t: Tid)
      requires Inv(Value()) && Enabled(Value(), UnassignHolder(t))
      modifies this
      ensures Value() == After(old(Value()), UnassignHolder(t)) && Inv(Value())
    {
      StepKeepsInv(Value(), UnassignHolder(t));
      holder := NOBODY;
      place := place[t := Leaving];
    }

    method PthreadUnlock(t: Tid)
      requires Inv(Value()) && Enabled(Value(), Unlock(t))
      modifies this
      ensures Value() == After(old(Value()), Unlock(t)) && Inv(Value())
    {
      StepKeepsInv(Value(), Unlock(t));
      owner := NOBODY;
      place := place[t := Outside];
    }

    /** The constructor of `UnassignGuard`. */
    method EnterWait(t: Tid)
      requires Inv(Value()) && Enabled(Value(), BeginWait(t))
      modifies this
      ensures Value() == After(old(Value()), BeginWait(t)) && Inv(Value())
    {
      StepKeepsInv(Value(), BeginWait(t));
      holder := NOBODY;
      place := place[t := Unassigned];
    }

    /** The beginning of pthread_cond_wait. */
    method FallAsleep(t: Tid)
      requires Inv(Value()) && Enabled(Value(), Sleep(t))
      modifies this
      ensures Value() == After(old(Value()), Sleep(t)) && Inv(Value())
    {
      StepKeepsInv(Value(), Sleep(t));
      owner := NOBODY;
      place := place[t := Asleep];
    }

    /** A notification or a spurious wakeup: no field of the object is touched. */
    ghost method WakeUp(t: Tid)
      requires Inv(Value()) && Enabled(Value(), Wake(t))
      modifies this`place
      ensures Value() == After(old(Value()), Wake(t)) && Inv(Value())
    {
      StepKeepsInv(Value(), Wake(t));
      place := place[t := Awake];
    }

    /** What `assertLocked` tests; a thread inside a guard always passes. */
    method IsLockedBy(t: Tid) returns (locked: bool)
      requires Inv(Value()) && t in place && t != NOBODY
      ensures locked <==> place[t].Inside?
    {
      locked := holder == t;
    }
  }
}
