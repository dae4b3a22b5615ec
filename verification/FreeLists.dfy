/** Both free lists are queues: whoever waits longest is used first, over every run. */
module FreeLists {
  import opened Recycling
  import opened RecyclingProperties

  // ---- connections ----

  /** The connections of the Close steps, in order. */
  function Closed(steps: seq<Step>): seq<Conn> {
    if steps == [] then []
    else
      var last := steps[|steps| - 1];
      Closed(steps[..|steps| - 1]) + if last.Close? then [last.conn] else []
  }

  /** The connections that Handle steps took back: what they appended to `active` while some waited. */
  function TakenBack(run: seq<Server>, steps: seq<Step>): seq<Conn>
    requires |run| == |steps| + 1
    decreases |steps|
  {
    var n := |steps|;
    if n == 0 then []
    else
      var s, s' := run[n - 1], run[n];
      TakenBack(run[..n], steps[..n - 1])
        + if steps[n - 1].Handle? && s.reuse != [] && s'.active != [] then [s'.active[|s'.active| - 1]] else []
  }

  lemma StepQueuesConnections(s: Server, step: Step)
    requires Enabled(s, step)
    ensures var s' := After(s, step);
      if step.Close? then s'.reuse == s.reuse + [step.conn]
      else if step.Handle? && s.reuse != [] then s'.active != [] && s.reuse == [s'.active[|s'.active| - 1]] + s'.reuse
      else s'.reuse == s.reuse
  {
  }

  lemma Shifted(a: seq<nat>, x: nat, b: seq<nat>)
    ensures a + ([x] + b) == (a + [x]) + b
  {
  }

  /** The connections closed are, in that order, those taken back since and those that wait. */
  lemma {:induction false} ConnectionsAreQueued(run: seq<Server>, steps: seq<Step>)
    requires IsRun(run, steps)
    ensures Closed(steps) == TakenBack(run, steps) + run[|steps|].reuse
    decreases |steps|
  {
    hide After, Enabled, Fresh;
    var n := |steps|;
    if n > 0 {
      var s, s', step := run[n - 1], run[n], steps[n - 1];
      assert IsRun(run[..n], steps[..n - 1]);
      ConnectionsAreQueued(run[..n], steps[..n - 1]);
      StepQueuesConnections(s, step);
      var before := TakenBack(run[..n], steps[..n - 1]);
      if step.Close? {
        assert before + s.reuse + [step.conn] == before + (s.reuse + [step.conn]);
      } else if step.Handle? && s.reuse != [] {
        Shifted(before, s'.active[|s'.active| - 1], s'.reuse);
      }
    }
  }

  // ---- sockets ----

  /** The sockets that the closed connections held, in order. */
  function Returned(run: seq<Server>, steps: seq<Step>): seq<Sock>
    requires |run| == |steps| + 1
    decreases |steps|
  {
    var n := |steps|;
    if n == 0 then []
    else
      var s, step := run[n - 1], steps[n - 1];
      Returned(run[..n], steps[..n - 1])
        + if step.Close? && step.conn in s.socketOf then [s.socketOf[step.conn]] else []
  }

  /** The sockets that Accept steps used again: what they mapped the descriptor to while some waited. */
  function UsedAgain(run: seq<Server>, steps: seq<Step>): seq<Sock>
    requires |run| == |steps| + 1
    decreases |steps|
  {
    var n := |steps|;
    if n == 0 then []
    else
      var s, s', step := run[n - 1], run[n], steps[n - 1];
      UsedAgain(run[..n], steps[..n - 1])
        + if step.Accept? && s.reuseSockets != [] && step.fd in s'.activeSocket then [s'.activeSocket[step.fd]] else []
  }

  lemma StepQueuesSockets(s: Server, step: Step)
    requires Enabled(s, step) && Fresh(s, step)
    ensures var s' := After(s, step);
      if step.Close? then step.conn in s.socketOf && s'.reuseSockets == s.reuseSockets + [s.socketOf[step.conn]]
      else if step.Accept? && s.reuseSockets != [] then
        step.fd in s'.activeSocket && s.reuseSockets == [s'.activeSocket[step.fd]] + s'.reuseSockets
      else s'.reuseSockets == s.reuseSockets
  {
  }

  /** The sockets returned are, in that order, those used again since and those that wait. */
  lemma {:induction false} SocketsAreQueued(run: seq<Server>, steps: seq<Step>)
    requires IsRun(run, steps)
    ensures Returned(run, steps) == UsedAgain(run, steps) + run[|steps|].reuseSockets
    decreases |steps|
  {
    hide After, Enabled, Fresh;
    var n := |steps|;
    if n > 0 {
      var s, s', step := run[n - 1], run[n], steps[n - 1];
      assert IsRun(run[..n], steps[..n - 1]);
      SocketsAreQueued(run[..n], steps[..n - 1]);
      StepQueuesSockets(s, step);
      var before := UsedAgain(run[..n], steps[..n - 1]);
      if step.Close? {
        assert before + s.reuseSockets + [s.socketOf[step.conn]] == before + (s.reuseSockets + [s.socketOf[step.conn]]);
      } else if step.Accept? && s.reuseSockets != [] {
        Shifted(before, s'.activeSocket[step.fd], s'.reuseSockets);
      }
    }
  }
}
