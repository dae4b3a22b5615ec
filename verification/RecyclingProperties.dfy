/** What holds over every run of accepting and closing, and at its end. */
module RecyclingProperties {
  import opened Recycling
  import Threads

  ghost predicate IsRun(run: seq<Server>, steps: seq<Step>) {
    && |run| == |steps| + 1 && run[0] == STARTED
    && forall i | 0 <= i < |steps| ::
         Enabled(run[i], steps[i]) && Fresh(run[i], steps[i]) && run[i + 1] == After(run[i], steps[i])
  }

  lemma StartedInv()
    ensures Inv(STARTED)
  {
  }

  lemma {:induction false} RunKeepsInv(run: seq<Server>, steps: seq<Step>, i: nat)
    requires IsRun(run, steps) && i < |run|
    ensures Inv(run[i])
  {
    hide Inv, After, Enabled, Fresh;
    if i == 0 {
      StartedInv();
    } else {
      RunKeepsInv(run, steps, i - 1);
      StepKeepsInv(run[i - 1], steps[i - 1]);
    }
  }

  // ---- ownership ----

  lemma TwiceIsTwo(s: seq<nat>, i: nat, j: nat)
    requires i < j < |s| && s[i] == s[j]
    ensures multiset(s)[s[i]] >= 2
  {
    assert s == s[..j] + [s[j]] + s[j + 1..];
    assert s[i] in s[..j];
    assert multiset(s) == multiset(s[..j]) + multiset([s[j]]) + multiset(s[j + 1..]);
  }

  predicate Distinct(s: seq<nat>) {
    forall i, j | 0 <= i < j < |s| :: s[i] != s[j]
  }

  lemma OnceMeansDistinct(s: seq<nat>)
    requires forall x: nat :: multiset(s)[x] <= 1
    ensures Distinct(s)
  {
    forall i, j | 0 <= i < j < |s|
      ensures s[i] != s[j]
    {
      if s[i] == s[j] { TwiceIsTwo(s, i, j); }
    }
  }

  /** No connection is listed twice or in both lists, and together the lists hold all that were allocated. */
  lemma ConnectionsOwned(run: seq<Server>, steps: seq<Step>, i: nat)
    requires IsRun(run, steps) && i < |run|
    ensures var s := run[i];
      && Distinct(s.active + s.reuse)
      && (forall c: Conn :: c in s.active + s.reuse <==> c < |s.threadOf|)
      && (forall c :: c in s.socketOf <==> c in s.active)
  {
    var s := run[i];
    RunKeepsInv(run, steps, i);
    hide SocketsPlaced, MapInverts, RoundRobin;
    var all: seq<Conn> := s.active + s.reuse;
    assert forall c: Conn :: multiset(all)[c] == multiset(s.active)[c] + multiset(s.reuse)[c];
    OnceMeansDistinct(all);
    assert forall c: Conn :: c in all <==> c in multiset(all);
  }

  /**
   The descriptor map pairs off the descriptors with exactly the sockets of active
   connections and those in flight: it and the sockets' own descriptors are inverse to each
   other. Waiting sockets are listed once and hold none.
   */
  lemma SocketsOwned(run: seq<Server>, steps: seq<Step>, i: nat)
    requires IsRun(run, steps) && i < |run|
    ensures var s := run[i];
      && (forall c, d | c in s.active && d in s.active && c != d ::
            c in s.socketOf && d in s.socketOf && s.socketOf[c] != s.socketOf[d] && s.socketOf[c] !in s.inFlight)
      && (forall k: Sock :: k in s.socketOf.Values + s.inFlight <==>
            k < |s.fdOf| && s.fdOf[k] in s.activeSocket && s.activeSocket[s.fdOf[k]] == k)
      && (forall fd | fd in s.activeSocket :: s.activeSocket[fd] < |s.fdOf| && s.fdOf[s.activeSocket[fd]] == fd)
      && Distinct(s.reuseSockets)
      && (forall k | k in s.reuseSockets :: k < |s.fdOf| && s.fdOf[k] == INVALID_SOCKET)
  {
    var s := run[i];
    RunKeepsInv(run, steps, i);
    hide ConnectionsPlaced, RoundRobin;
    OnceMeansDistinct(s.reuseSockets);
    assert forall k :: k in s.reuseSockets <==> k in multiset(s.reuseSockets);
    assert forall k: Sock :: k in s.socketOf.Values + s.inFlight <==> InUse(s, k);
  }

  // ---- optimal allocation ----

  function Larger(a: nat, b: nat): nat { if a < b then b else a }

  function PeakActive(run: seq<Server>): nat {
    if run == [] then 0 else Larger(PeakActive(run[..|run| - 1]), |run[|run| - 1].active|)
  }

  function PeakSockets(run: seq<Server>): nat {
    if run == [] then 0
    else
      var s := run[|run| - 1];
      Larger(PeakSockets(run[..|run| - 1]), |s.active| + |s.inFlight|)
  }

  lemma StepAllocatesOnDemand(s: Server, step: Step)
    requires Inv(s) && Enabled(s, step) && Fresh(s, step)
    ensures var s' := After(s, step);
      && |s'.threadOf| == Larger(|s.threadOf|, |s'.active|)
      && |s'.fdOf| == Larger(|s.fdOf|, |s'.active| + |s'.inFlight|)
  {
    StepKeepsInv(s, step);
    hide SocketsHeld, MapInverts, RoundRobin;
    assert ConnectionsPlaced(After(s, step)) && SocketsPlaced(After(s, step));
  }

  /** Over every run, exactly as many connections and sockets were allocated as were ever in use at once. */
  lemma {:induction false} AllocationIsOptimal(run: seq<Server>, steps: seq<Step>)
    requires IsRun(run, steps)
    ensures |run[|steps|].threadOf| == PeakActive(run)
    ensures |run[|steps|].fdOf| == PeakSockets(run)
    decreases |steps|
  {
    hide Inv, After, Enabled, Fresh;
    var n := |steps|;
    if n == 0 {
      assert run[..0] == [];
    } else {
      assert IsRun(run[..n], steps[..n - 1]);
      AllocationIsOptimal(run[..n], steps[..n - 1]);
      RunKeepsInv(run, steps, n - 1);
      StepAllocatesOnDemand(run[n - 1], steps[n - 1]);
    }
  }

  // ---- load balancing ----

  /** How many of the connections below `n` run on I/O thread `t`. */
  function OnThread(threadOf: seq<nat>, t: nat): nat {
    if threadOf == [] then 0
    else OnThread(threadOf[..|threadOf| - 1], t) + Times(threadOf[|threadOf| - 1] == t)
  }

  lemma {:induction false} RoundRobinCount(threadOf: seq<nat>, t: nat)
    requires t < IOTHREAD_SIZE
    requires forall c: nat | c < |threadOf| :: threadOf[c] == (c + 1) % IOTHREAD_SIZE
    ensures OnThread(threadOf, t) == (|threadOf| + (if t == 0 then 0 else IOTHREAD_SIZE - t)) / IOTHREAD_SIZE
    decreases |threadOf|
  {
    if threadOf != [] {
      RoundRobinCount(threadOf[..|threadOf| - 1], t);
    }
  }

  /** Of the connections ever allocated, no I/O thread has two more than another. */
  lemma AllocationIsBalanced(run: seq<Server>, steps: seq<Step>, i: nat, t: nat, u: nat)
    requires IsRun(run, steps) && i < |run| && t < IOTHREAD_SIZE && u < IOTHREAD_SIZE
    ensures OnThread(run[i].threadOf, t) <= OnThread(run[i].threadOf, u) + 1
  {
    RunKeepsInv(run, steps, i);
    RoundRobinCount(run[i].threadOf, t);
    RoundRobinCount(run[i].threadOf, u);
  }

  /** The active connections on I/O thread `t`. */
  function ActiveOn(s: Server, t: nat): set<Conn> {
    set c | c in s.active && c < |s.threadOf| && s.threadOf[c] == t
  }

  function AllocatedOn(threadOf: seq<nat>, t: nat): set<Conn> {
    set c: Conn | c < |threadOf| && threadOf[c] == t
  }

  lemma {:induction false} AllocatedIsCounted(threadOf: seq<nat>, t: nat)
    ensures |AllocatedOn(threadOf, t)| == OnThread(threadOf, t)
    decreases |threadOf|
  {
    if threadOf == [] {
      assert AllocatedOn(threadOf, t) == {};
    } else {
      var n := |threadOf| - 1;
      AllocatedIsCounted(threadOf[..n], t);
      assert AllocatedOn(threadOf, t) == AllocatedOn(threadOf[..n], t) + if threadOf[n] == t then {n} else {};
    }
  }

  /** No I/O thread ever serves more than a tenth, rounded up, of the most connections that were active at once. */
  lemma ActiveLoadIsBounded(run: seq<Server>, steps: seq<Step>, t: nat)
    requires IsRun(run, steps) && t < IOTHREAD_SIZE
    ensures |ActiveOn(run[|steps|], t)| <= (PeakActive(run) + IOTHREAD_SIZE - 1) / IOTHREAD_SIZE
  {
    var s := run[|steps|];
    AllocationIsOptimal(run, steps);
    RunKeepsInv(run, steps, |steps|);
    RoundRobinCount(s.threadOf, t);
    AllocatedIsCounted(s.threadOf, t);
    Threads.Within(ActiveOn(s, t), AllocatedOn(s.threadOf, t));
    hide PeakActive, OnThread, ActiveOn, AllocatedOn, IsRun, Inv;
  }

  // ---- the load need not be balanced ----

  ghost predicate ReachedBy(s: Server, run: seq<Server>, steps: seq<Step>) {
    IsRun(run, steps) && run[|steps|] == s
  }

  lemma OneMoreStep(s: Server, run: seq<Server>, steps: seq<Step>, step: Step)
    returns (run': seq<Server>, steps': seq<Step>)
    requires ReachedBy(s, run, steps) && Enabled(s, step) && Fresh(s, step)
    ensures ReachedBy(After(s, step), run', steps')
  {
    hide After, Enabled, Fresh;
    run', steps' := run + [After(s, step)], steps + [step];
  }

  /** The state after `n` clients have connected to a server just started. */
  ghost predicate Opened(s: Server, n: nat) {
    && |s.threadOf| == n && s.reuse == [] && s.reuseSockets == [] && s.inFlight == {}
    && (forall c: Conn :: c in s.active <==> c < n)
    && (forall fd | fd in s.activeSocket :: fd < n)
    && |s.fdOf| == n
  }

  lemma {:induction false} OpenMany(n: nat) returns (s: Server, run: seq<Server>, steps: seq<Step>)
    ensures ReachedBy(s, run, steps) && Opened(s, n)
  {
    if n == 0 {
      s, run, steps := STARTED, [STARTED], [];
    } else {
      s, run, steps := OpenMany(n - 1);
      OpenOne(s, n - 1);
      var accept, handle := Accept(n - 1), Handle(n - 1);
      run, steps := OneMoreStep(s, run, steps, accept);
      run, steps := OneMoreStep(After(s, accept), run, steps, handle);
      s := After(After(s, accept), handle);
    }
  }

  lemma OpenOne(s: Server, n: nat)
    requires Opened(s, n)
    ensures Enabled(s, Accept(n)) && Fresh(s, Accept(n)) && Enabled(After(s, Accept(n)), Handle(n))
    ensures Opened(After(After(s, Accept(n)), Handle(n)), n + 1)
  {
  }

  lemma {:induction false} CloseMany(s: Server, run: seq<Server>, steps: seq<Step>, k: nat)
    returns (s': Server, run': seq<Server>, steps': seq<Step>)
    requires ReachedBy(s, run, steps) && forall c: Conn | 1 <= c <= k :: c in s.active
    ensures ReachedBy(s', run', steps') && s'.threadOf == s.threadOf
    ensures forall c: Conn :: c in s'.active <==> c in s.active && !(1 <= c <= k)
  {
    hide Inv, Enabled;
    s', run', steps' := s, run, steps;
    if k > 0 {
      s', run', steps' := CloseMany(s, run, steps, k - 1);
      RunKeepsInv(run', steps', |steps'|);
      ActiveMayClose(s', k);
      WithoutRemoves(s'.active, k);
      assert forall c: Conn :: c in Without(s'.active, k) <==> c in multiset(Without(s'.active, k));
      assert forall c: Conn :: c in s'.active <==> c in multiset(s'.active);
      run', steps' := OneMoreStep(s', run', steps', Close(k));
      s' := After(s', Close(k));
    }
  }

  /** Eleven clients connect and nine leave: one thread has both that are left, the others none. */
  lemma LoadMayBeUneven() returns (run: seq<Server>, steps: seq<Step>)
    ensures IsRun(run, steps)
    ensures ActiveOn(run[|steps|], 1) == {0, 10}
    ensures forall t: nat | t != 1 :: ActiveOn(run[|steps|], t) == {}
  {
    var s: Server;
    s, run, steps := OpenMany(11);
    s, run, steps := CloseMany(s, run, steps, 9);
    RunKeepsInv(run, steps, |steps|);
    assert forall c: Conn :: c in s.active <==> c == 0 || c == 10;
    assert s.threadOf[0] == 1 && s.threadOf[10] == 1;
  }

  /**
   The index is taken modulo the constant ten, the threads are as many as configured:
   every index is within them if and only if there are at least ten, or so few
   connections that the index never came that far.
   */
  lemma ThreadIndexInRangeIff(run: seq<Server>, steps: seq<Step>, i: nat, iothreads: nat)
    requires IsRun(run, steps) && i < |run|
    ensures (forall c: nat | c < |run[i].threadOf| :: run[i].threadOf[c] < iothreads)
      <==> iothreads >= IOTHREAD_SIZE || |run[i].threadOf| < iothreads || run[i].threadOf == []
  {
    RunKeepsInv(run, steps, i);
    var threadOf := run[i].threadOf;
    if iothreads < IOTHREAD_SIZE && threadOf != [] && |threadOf| >= iothreads {
      var c := if iothreads == 0 then 0 else iothreads - 1;
      assert threadOf[c] >= iothreads;
    }
  }

  // ---- shutdown ----

  /** What ~MainServer deletes: the connections, the waiting ones first. */
  function FreedConnections(s: Server): seq<Conn> { s.reuse + s.active }

  /** Deleting a connection deletes its socket, if it has one. */
  function FreedWith(socketOf: map<Conn, Sock>, conns: seq<Conn>): seq<Sock> {
    if conns == [] then []
    else (if conns[0] in socketOf then [socketOf[conns[0]]] else []) + FreedWith(socketOf, conns[1..])
  }

  /** Then ~PortListener deletes the waiting sockets. */
  function FreedSockets(s: Server): seq<Sock> {
    FreedWith(s.socketOf, FreedConnections(s)) + s.reuseSockets
  }

  lemma {:induction false} FreedWithCount(socketOf: map<Conn, Sock>, conns: seq<Conn>, k: Sock)
    requires Distinct(conns)
    requires forall c, d | c in socketOf && d in socketOf && socketOf[c] == socketOf[d] :: c == d
    ensures multiset(FreedWith(socketOf, conns))[k] == Times(exists c ::
      c in conns && c in socketOf && socketOf[c] == k)
    decreases |conns|
  {
    if conns != [] {
      var c, rest := conns[0], conns[1..];
      FreedWithCount(socketOf, rest, k);
      assert conns == [c] + rest && c !in rest;
      var head := if c in socketOf then [socketOf[c]] else [];
      assert multiset(FreedWith(socketOf, conns)) == multiset(head) + multiset(FreedWith(socketOf, rest));
    }
  }

  lemma SocketFreedOnce(s: Server, k: Sock)
    requires SocketsHeld(s) && SocketsPlaced(s) && Distinct(FreedConnections(s))
    ensures multiset(FreedSockets(s))[k] == Times(k < |s.fdOf| && k !in s.inFlight)
  {
    var conns := FreedConnections(s);
    FreedWithCount(s.socketOf, conns, k);
    assert InUse(s, k) <==> k < |s.fdOf| && s.fdOf[k] != INVALID_SOCKET;
    assert k in s.socketOf.Values <==> exists c :: c in conns && c in s.socketOf && s.socketOf[c] == k;
    hide FreedWith, Distinct;
  }

  /**
   Shutting down deletes every connection exactly once, and every socket exactly once but
   those in flight, which nothing deletes.
   */
  lemma ShutdownFreesOnce(run: seq<Server>, steps: seq<Step>, i: nat)
    requires IsRun(run, steps) && i < |run|
    ensures var s := run[i];
      && (forall c: Conn :: multiset(FreedConnections(s))[c] == Times(c < |s.threadOf|))
      && (forall k: Sock :: multiset(FreedSockets(s))[k] == Times(k < |s.fdOf| && k !in s.inFlight))
  {
    var s := run[i];
    RunKeepsInv(run, steps, i);
    hide SocketsHeld, SocketsPlaced, MapInverts, RoundRobin, IsRun, FreedSockets;
    var conns: seq<Conn> := FreedConnections(s);
    assert forall c: Conn :: multiset(conns)[c] == multiset(s.active)[c] + multiset(s.reuse)[c];
    OnceMeansDistinct(conns);
    forall k: Sock
      ensures multiset(FreedSockets(s))[k] == Times(k < |s.fdOf| && k !in s.inFlight)
    {
      SocketFreedOnce(s, k);
    }
  }
}
