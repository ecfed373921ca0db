/**
 * Progress: from any point of an honest run the network can settle, and then every event is everywhere, exactly if
 * no WebHook call has aborted a node.
 */
module Progress {
  import opened Text
  import opened Sequences
  import opened Events
  import opened Node
  import opened Replication
  import opened ReplicationSafety
  import opened Convergence
  import opened WebHookStage
  import WebHook

  /** How many stages a task can still have. */
  function Rank(t: Task): nat {
    if t.Idle? then 0
    else if t.stage.ToJsonLog? then 4 else if t.stage.ToInsert? then 3 else if t.stage.ToPost? then 2 else 1
  }

  /** A WebHook call that is accepted at once, with any token. */
  const ACCEPTED := WebHook.Attempt(true, true, WebHook.Granted(""), true, true, WebHook.Status(200))

  lemma AcceptedReturns(cfg: Config, e: BadActor)
    ensures Returns(WebHookCall(cfg, None, e, [ACCEPTED]).outcome)
  {
    var asked := WebHook.Asked(ACCEPTED.token);
    assert WebHook.Posted(true, None, [ACCEPTED]) == WebHook.Sent(true, Some(""), asked, [ACCEPTED]);
    assert WebHook.Posted(false, None, [ACCEPTED]) == WebHook.Sent(false, None, [], [ACCEPTED]);
  }

  /** The next stage, without failure. */
  function Advance(n: string, side: Side, t: Task): (step: Step)
    requires t.Busy?
    ensures Clean(step)
  {
    match t.stage
    case ToJsonLog => JsonLog(n, side, Written)
    case ToInsert => Insert(n, side, Inserted)
    case ToPost => Post(n, side, None, [ACCEPTED])
    case ToPublish => Publish(n, true)
  }

  /** The listener has no publishing stage. */
  predicate CanAdvance(side: Side, t: Task) {
    side.Incoming? && t.Busy? ==> !t.stage.ToPublish?
  }

  predicate ListenersCanAdvance(s: Cluster) {
    forall n :: n in s.nodes ==> CanAdvance(Incoming, s.nodes[n].incoming)
  }

  lemma {:induction false} ListenersNeverPublish(s: Cluster, steps: seq<Step>)
    requires Init(s)
    ensures ListenersCanAdvance(Run(s, steps))
  {
    if steps != [] {
      ListenersNeverPublish(s, steps[..|steps| - 1]);
      ListenerStep(Run(s, steps[..|steps| - 1]), steps[|steps| - 1]);
    }
  }

  lemma ListenerStep(s: Cluster, step: Step)
    requires ListenersCanAdvance(s)
    ensures ListenersCanAdvance(Next(s, step))
  {
    GrowingHistory(s, step);
  }

  /** From s to s' only one task of node n has moved. */
  predicate OnlyMoves(s: Cluster, s': Cluster, n: string, side: Side) {
    && s'.nodes.Keys == s.nodes.Keys && s'.events == s.events && n in s.nodes
    && (forall m :: m in s.nodes && m != n ==> s'.nodes[m] == s.nodes[m])
    && s'.nodes[n].received == s.nodes[n].received && s'.nodes[n].stopped == s.nodes[n].stopped
    && (if side.Local? then s'.nodes[n].incoming == s.nodes[n].incoming
        else s'.nodes[n].local == s.nodes[n].local && s'.dht == s.dht)
  }

  /** The acting node: one task is further on, the other one and the history are as before. */
  predicate Moved(node: NodeState, node': NodeState, side: Side) {
    && node'.received == node.received && node'.stopped == node.stopped
    && (if side.Local? then node'.incoming == node.incoming else node'.local == node.local)
    && Rank(TaskOf(node', side)) < Rank(TaskOf(node, side)) && CanAdvance(side, TaskOf(node', side))
  }

  lemma AdvanceNode(s: Cluster, n: string, side: Side)
    requires n in s.nodes && !s.nodes[n].stopped
    requires TaskOf(s.nodes[n], side).Busy? && CanAdvance(side, TaskOf(s.nodes[n], side))
    ensures var step := Advance(n, side, TaskOf(s.nodes[n], side));
            Enabled(s, step) && Moved(s.nodes[n], NodeNext(s, step), side)
  {
    AcceptedReturns(s.nodes[n].cfg, TaskOf(s.nodes[n], side).e);
  }

  lemma AdvanceMoves(s: Cluster, n: string, side: Side)
    requires n in s.nodes && !s.nodes[n].stopped
    requires TaskOf(s.nodes[n], side).Busy? && CanAdvance(side, TaskOf(s.nodes[n], side))
    ensures var s' := Next(s, Advance(n, side, TaskOf(s.nodes[n], side)));
            && OnlyMoves(s, s', n, side)
            && Rank(TaskOf(s'.nodes[n], side)) < Rank(TaskOf(s.nodes[n], side))
            && CanAdvance(side, TaskOf(s'.nodes[n], side))
  {
    var step := Advance(n, side, TaskOf(s.nodes[n], side));
    AdvanceNode(s, n, side);
    GrowingHistory(s, step);
    assert Next(s, step).nodes == s.nodes[n := NodeNext(s, step)];
  }

  lemma OneStep(s: Cluster, step: Step)
    ensures Run(s, [step]) == Next(s, step)
  {
    assert [step][..0] == [];
  }

  /** A task of a running node can be finished while nothing else moves. */
  lemma FinishTask(s: Cluster, n: string, side: Side) returns (steps: seq<Step>)
    requires n in s.nodes && !s.nodes[n].stopped && CanAdvance(side, TaskOf(s.nodes[n], side))
    ensures CleanRun(steps) && OnlyMoves(s, Run(s, steps), n, side)
    ensures TaskOf(Run(s, steps).nodes[n], side).Idle?
    decreases Rank(TaskOf(s.nodes[n], side))
  {
    steps := [];
    var t := TaskOf(s.nodes[n], side);
    if t.Busy? {
      var step := Advance(n, side, t);
      AdvanceMoves(s, n, side);
      var rest := FinishTask(Next(s, step), n, side);
      OneStep(s, step);
      RunConcat(s, [step], rest);
      steps := [step] + rest;
    }
  }

  predicate AtRest(node: NodeState) {
    node.local.Idle? && node.incoming.Idle? && !node.stopped
  }

  lemma FinishNode(s: Cluster, n: string) returns (steps: seq<Step>)
    requires n in s.nodes && !s.nodes[n].stopped && CanAdvance(Incoming, s.nodes[n].incoming)
    ensures CleanRun(steps)
    ensures var s' := Run(s, steps);
            && s'.nodes.Keys == s.nodes.Keys && s'.events == s.events && AtRest(s'.nodes[n])
            && forall m :: m in s.nodes && m != n ==> s'.nodes[m] == s.nodes[m]
  {
    var a := FinishTask(s, n, Local);
    var b := FinishTask(Run(s, a), n, Incoming);
    RunConcat(s, a, b);
    steps := a + b;
  }

  predicate NoneStopped(s: Cluster) {
    forall n :: n in s.nodes ==> !s.nodes[n].stopped
  }

  lemma FinishNodes(s: Cluster, todo: set<string>) returns (steps: seq<Step>)
    requires todo <= s.nodes.Keys && ListenersCanAdvance(s) && NoneStopped(s)
    ensures CleanRun(steps)
    ensures var s' := Run(s, steps);
            && s'.nodes.Keys == s.nodes.Keys && s'.events == s.events
            && (forall m :: m in todo ==> AtRest(s'.nodes[m]))
            && forall m :: m in s.nodes && m !in todo ==> s'.nodes[m] == s.nodes[m]
    decreases |todo|
  {
    steps := [];
    if todo != {} {
      var n :| n in todo;
      var a := FinishNode(s, n);
      var s1 := Run(s, a);
      assert ListenersCanAdvance(s1) && NoneStopped(s1);
      var b := FinishNodes(s1, todo - {n});
      RunConcat(s, a, b);
      steps := a + b;
    }
  }

  /** The deliveries that are still to come. */
  function Pending(s: Cluster): set<(string, Payload)> {
    set n, p | n in s.nodes && p in s.dht && p !in s.nodes[n].received :: (n, p)
  }

  predicate AllAtRest(s: Cluster) {
    forall n :: n in s.nodes ==> AtRest(s.nodes[n])
  }

  lemma DeliverOne(s: Cluster, n: string, p: Payload) returns (steps: seq<Step>)
    requires AllAtRest(s) && (n, p) in Pending(s)
    ensures CleanRun(steps)
    ensures var s' := Run(s, steps);
            && AllAtRest(s') && s'.events == s.events && Pending(s') <= Pending(s) && (n, p) !in Pending(s')
  {
    var step := Deliver(n, p, false, false);
    var s1 := Next(s, step);
    assert s1.nodes[n].received == s.nodes[n].received + {p} && s1.nodes[n].local.Idle? && s1.dht == s.dht;
    var rest := FinishTask(s1, n, Incoming);
    OneStep(s, step);
    RunConcat(s, [step], rest);
    steps := [step] + rest;
  }

  lemma DeliverAll(s: Cluster) returns (steps: seq<Step>)
    requires AllAtRest(s)
    ensures CleanRun(steps) && Quiescent(Run(s, steps)) && Run(s, steps).events == s.events
    decreases |Pending(s)|
  {
    steps := [];
    if Pending(s) == {} {
      forall n, p | n in s.nodes && p in s.dht
        ensures p in s.nodes[n].received
      {
        assert (n, p) !in Pending(s);
      }
    } else {
      var pair :| pair in Pending(s);
      var a := DeliverOne(s, pair.0, pair.1);
      SubsetSize(Pending(Run(s, a)), Pending(s));
      var b := DeliverAll(Run(s, a));
      RunConcat(s, a, b);
      steps := a + b;
    }
  }

  /**
   * Whatever an honest run has done so far, it can be continued, without further events, until every node
   * holds the row of every event generated, provided that no node has been aborted.
   */
  lemma CanSettle(s: Cluster, steps: seq<Step>) returns (more: seq<Step>)
    requires Start(s) && CleanRun(steps) && NoneStopped(Run(s, steps))
    ensures CleanRun(steps + more) && Quiescent(Run(s, steps + more))
    ensures var s' := Run(s, steps + more);
            && s'.events == Run(s, steps).events && s'.nodes.Keys == s.nodes.Keys
            && forall n :: n in s'.nodes ==> multiset(s'.nodes[n].store.table) == multiset(RowsAt(n, s'.events))
  {
    var s1 := Run(s, steps);
    InvRun(s, steps);
    ListenersNeverPublish(s, steps);
    var a := FinishNodes(s1, s1.nodes.Keys);
    var b := DeliverAll(Run(s1, a));
    more := a + b;
    RunConcat(s1, a, b);
    RunConcat(s, steps, more);
    InvRun(s, steps + more);
    AllConverged(s, steps + more);
  }

  lemma AllConverged(s: Cluster, steps: seq<Step>)
    requires Start(s) && CleanRun(steps) && Quiescent(Run(s, steps))
    ensures var s' := Run(s, steps);
            forall n :: n in s'.nodes ==> multiset(s'.nodes[n].store.table) == multiset(RowsAt(n, s'.events))
  {
    var s' := Run(s, steps);
    forall n | n in s'.nodes
      ensures multiset(s'.nodes[n].store.table) == multiset(RowsAt(n, s'.events))
    {
      Converged(s, steps, n);
    }
  }

  // ----- an aborted node never settles -----

  predicate StoppedAreBusy(s: Cluster) {
    forall n :: n in s.nodes && s.nodes[n].stopped ==> s.nodes[n].local.Busy? || s.nodes[n].incoming.Busy?
  }

  lemma {:induction false} StoppedWhileBusy(s: Cluster, steps: seq<Step>)
    requires Init(s)
    ensures StoppedAreBusy(Run(s, steps))
  {
    if steps != [] {
      StoppedWhileBusy(s, steps[..|steps| - 1]);
      StoppedBusyStep(Run(s, steps[..|steps| - 1]), steps[|steps| - 1]);
    }
  }

  lemma StoppedBusyStep(s: Cluster, step: Step)
    requires StoppedAreBusy(s)
    ensures StoppedAreBusy(Next(s, step))
  {
    GrowingHistory(s, step);
  }

  /** An honest run can settle exactly if no node has been aborted. */
  lemma SettlesExactly(s: Cluster, steps: seq<Step>)
    requires Start(s) && CleanRun(steps)
    ensures (exists more :: CleanRun(steps + more) && Quiescent(Run(s, steps + more))) <==> NoneStopped(Run(s, steps))
  {
    if NoneStopped(Run(s, steps)) {
      var more := CanSettle(s, steps);
    } else {
      var n :| n in Run(s, steps).nodes && Run(s, steps).nodes[n].stopped;
      StoppedWhileBusy(s, steps);
      forall more: seq<Step>
        ensures !Quiescent(Run(s, steps + more))
      {
        RunConcat(s, steps, more);
        StoppedIsFrozen(Run(s, steps), more, n);
      }
    }
  }
}
