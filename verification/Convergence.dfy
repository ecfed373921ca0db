/**
 * Convergence: with honest publishers and no failures, once every value has reached every node, the
 * table of each node is a permutation of one and the same list: the rows of all events ever generated.
 */
module Convergence {
  import opened Text
  import opened Sequences
  import opened Events
  import opened Node
  import opened Replication
  import opened ReplicationSafety

  /**
   * No forger, no database error, no failure that is noticed before the put. A log line may get lost, and a
   * WebHook call may end in any way.
   */
  predicate Clean(step: Step) {
    match step
    case LocalEvent(_, e) => AllUtf8(e)
    case JsonLog(_, _, json) => json.Written? || json.LineLost?
    case Insert(_, _, insert) => insert.Inserted?
    case Post(_, _, _, _) => true
    case Publish(_, valueMade) => valueMade
    case Deliver(_, _, _, dbError) => !dbError
    case Forge(_) => false
  }

  function ValueOf(e: BadActor): Payload
    requires AllUtf8(e)
  {
    Object(ToJson(e).value)
  }

  /** The row of event e in the table of node n: a replica has "" where the origin has NULL. */
  function RowAt(n: string, e: BadActor): Row {
    if e.createdByNodeId == Some(n) then RowOf(e) else NormalRow(RowOf(e))
  }

  predicate IsRowOfEvent(events: seq<BadActor>, n: string, r: Row) {
    exists e :: e in events && r == RowAt(n, e)
  }

  predicate IsEventValue(events: seq<BadActor>, p: Payload) {
    exists e :: e in events && AllUtf8(e) && p == ValueOf(e)
  }

  /** The value has been dealt with on node n: its own, stored, or about to be stored. */
  predicate Handled(n: string, node: NodeState, p: Payload) {
    NodeIdOf(p) == Some(n) ||
    (UuidOf(p).Some? && UuidOf(p).value in TableUuids(node.store.table)) ||
    (Unstored(node.incoming) && node.incoming.e.eventUuid == UuidOf(p))
  }

  /** Event e is not lost: on its way through its own node, or stored there and published. */
  predicate Settled(s: Cluster, e: BadActor) {
    AllUtf8(e) && e.eventUuid.Some? && IsUuid(e.eventUuid.value) &&
    e.createdByNodeId.Some? && e.createdByNodeId.value in s.nodes &&
    var node := s.nodes[e.createdByNodeId.value];
    && ((node.local.Busy? && node.local.e == e) || ValueOf(e) in s.dht)
    && ((Unstored(node.local) && node.local.e == e) || RowOf(e) in node.store.table)
  }

  predicate CleanNode(events: seq<BadActor>, n: string, node: NodeState) {
    && node.cfg.dhtMode
    && (forall r :: r in node.store.table ==> IsRowOfEvent(events, n, r))
    && (node.incoming.Busy? ==> IsRowOfEvent(events, n, RowOf(node.incoming.e)) && AllUtf8(node.incoming.e))
    && (forall p :: p in node.received ==> Handled(n, node, p))
  }

  predicate DistinctEvents(events: seq<BadActor>) {
    forall i, j :: 0 <= i < j < |events| ==> events[i].eventUuid != events[j].eventUuid
  }

  predicate CleanInv(s: Cluster) {
    && (forall n :: n in s.nodes ==> CleanNode(s.events, n, s.nodes[n]))
    && (forall e :: e in s.events ==> Settled(s, e))
    && (forall p :: p in s.dht ==> IsEventValue(s.events, p))
    && DistinctEvents(s.events)
  }

  lemma CleanNodeGrows(events: seq<BadActor>, events': seq<BadActor>, n: string, node: NodeState)
    requires events <= events' && CleanNode(events, n, node)
    ensures CleanNode(events', n, node)
  {
    assert forall e :: e in events ==> e in events';
  }

  /** Nodes that do not take the step. */
  lemma OtherClean(s: Cluster, step: Step, m: string)
    requires CleanInv(s) && m in s.nodes && Enabled(s, step) && (step.Forge? || step.n != m)
    ensures m in Next(s, step).nodes && CleanNode(Next(s, step).events, m, Next(s, step).nodes[m])
  {
    GrowingHistory(s, step);
    CleanNodeGrows(s.events, Next(s, step).events, m, s.nodes[m]);
  }

  lemma HandledAfterInsert(n: string, node: NodeState, side: Side, t: Task, p: Payload)
    requires TaskOf(node, side).Busy? && TaskOf(node, side).e.eventUuid.Some? && Handled(n, node, p) && !Unstored(t)
    ensures Handled(n, WithTask(node.(store := RowInserted(node.store, TaskOf(node, side).e, Inserted).0), side, t), p)
  {
    TableUuidsAppend(node.store.table, RowOf(TaskOf(node, side).e));
  }

  lemma InsertCleanNode(events: seq<BadActor>, n: string, node: NodeState, side: Side, t: Task)
    requires CleanNode(events, n, node) && TaskOf(node, side).Busy?
    requires TaskOf(node, side).e.eventUuid.Some? && IsRowOfEvent(events, n, RowOf(TaskOf(node, side).e))
    requires t.Busy? ==> !Unstored(t) && t.e == TaskOf(node, side).e
    ensures CleanNode(events, n, WithTask(node.(store := RowInserted(node.store, TaskOf(node, side).e, Inserted).0), side, t))
  {
    var node' := WithTask(node.(store := RowInserted(node.store, TaskOf(node, side).e, Inserted).0), side, t);
    forall p | p in node'.received
      ensures Handled(n, node', p)
    {
      HandledAfterInsert(n, node, side, t, p);
    }
  }

  lemma TaskFacts(s: Cluster, n: string, side: Side)
    requires Inv(s) && CleanInv(s) && n in s.nodes && TaskOf(s.nodes[n], side).Busy?
    ensures TaskOf(s.nodes[n], side).e.eventUuid.Some?
    ensures IsRowOfEvent(s.events, n, RowOf(TaskOf(s.nodes[n], side).e))
    ensures AllUtf8(TaskOf(s.nodes[n], side).e)
  {
    var e := TaskOf(s.nodes[n], side).e;
    assert NodeInv(s, n);
    if side.Local? {
      assert e in s.events && Settled(s, e);
      assert RowOf(e) == RowAt(n, e);
    } else {
      assert CleanNode(s.events, n, s.nodes[n]);
    }
  }

  lemma InsertNext(s: Cluster, n: string, side: Side)
    requires AtStage(s, n, side, ToInsert)
    ensures var node := s.nodes[n];
            Next(s, Insert(n, side, Inserted)).nodes[n] ==
            WithTask(node.(store := RowInserted(node.store, TaskOf(node, side).e, Inserted).0), side,
                     After(node.cfg, side, TaskOf(node, side)))
  {
  }

  lemma InsertClean(s: Cluster, n: string, side: Side)
    requires AtStage(s, n, side, ToInsert) && CleanNode(s.events, n, s.nodes[n])
    requires TaskOf(s.nodes[n], side).e.eventUuid.Some?
    requires IsRowOfEvent(s.events, n, RowOf(TaskOf(s.nodes[n], side).e))
    ensures CleanNode(s.events, n, Next(s, Insert(n, side, Inserted)).nodes[n])
  {
    var node := s.nodes[n];
    InsertNext(s, n, side);
    InsertCleanNode(s.events, n, node, side, After(node.cfg, side, TaskOf(node, side)));
  }

  lemma LocalClean(s: Cluster, n: string, e: BadActor)
    requires n in s.nodes && Enabled(s, LocalEvent(n, e)) && CleanNode(s.events, n, s.nodes[n])
    ensures CleanNode(Next(s, LocalEvent(n, e)).events, n, Next(s, LocalEvent(n, e)).nodes[n])
  {
    GrowingHistory(s, LocalEvent(n, e));
    CleanNodeGrows(s.events, Next(s, LocalEvent(n, e)).events, n, s.nodes[n]);
  }

  lemma DeliverCleanNode(events: seq<BadActor>, n: string, node: NodeState, p: Payload, t: Task, expired: bool)
    requires CleanNode(events, n, node) && node.incoming.Idle?
    requires t.Busy? ==> IsRowOfEvent(events, n, RowOf(t.e)) && AllUtf8(t.e)
    requires !expired ==> Handled(n, node.(incoming := t), p)
    ensures CleanNode(events, n, node.(received := if expired then node.received else node.received + {p}, incoming := t))
  {
    forall q | q in node.received
      ensures Handled(n, node.(incoming := t), q)
    {
      assert Handled(n, node, q);
    }
  }

  lemma DeliverClean(s: Cluster, n: string, p: Payload, expired: bool)
    requires Inv(s) && CleanInv(s) && Enabled(s, Deliver(n, p, expired, false))
    ensures CleanNode(s.events, n, Next(s, Deliver(n, p, expired, false)).nodes[n])
  {
    assert CleanNode(s.events, n, s.nodes[n]);
    assert IsEventValue(s.events, p);
    var e :| e in s.events && AllUtf8(e) && p == ValueOf(e);
    assert Settled(s, e);
    AcceptedValue(s, n, e, expired);
    DeliverEventClean(s, n, e, expired);
  }

  lemma DeliverEventClean(s: Cluster, n: string, e: BadActor, expired: bool)
    requires AllUtf8(e) && e in s.events && Enabled(s, Deliver(n, ValueOf(e), expired, false))
    requires CleanNode(s.events, n, s.nodes[n]) && e.eventUuid.Some?
    requires NodeIdOf(ValueOf(e)) == e.createdByNodeId && UuidOf(ValueOf(e)) == e.eventUuid
    requires Accepted(n, s.nodes[n].store.table, ValueOf(e), expired, false) ==
             if expired || e.createdByNodeId == Some(n) || e.eventUuid.value in TableUuids(s.nodes[n].store.table)
             then None else Some(Normal(e))
    ensures CleanNode(s.events, n, Next(s, Deliver(n, ValueOf(e), expired, false)).nodes[n])
  {
    var t := NodeNext(s, Deliver(n, ValueOf(e), expired, false)).incoming;
    if t.Busy? {
      ReplicaRow(n, e);
      assert t.e == Normal(e);
    }
    DeliverCleanNode(s.events, n, s.nodes[n], ValueOf(e), t, expired);
  }

  lemma ReplicaRow(n: string, e: BadActor)
    requires e.createdByNodeId != Some(n)
    ensures RowOf(Normal(e)) == RowAt(n, e) && ToJson(Normal(e)) == ToJson(e)
  {
    NormalCommutes(e);
    JsonRoundTrip(e);
  }

  /** What the callback decides on an honest value. */
  lemma AcceptedValue(s: Cluster, n: string, e: BadActor, expired: bool)
    requires Inv(s) && n in s.nodes && Settled(s, e)
    ensures NodeIdOf(ValueOf(e)) == e.createdByNodeId && UuidOf(ValueOf(e)) == e.eventUuid
    ensures Accepted(n, s.nodes[n].store.table, ValueOf(e), expired, false) ==
            if expired || e.createdByNodeId == Some(n) || e.eventUuid.value in TableUuids(s.nodes[n].store.table)
            then None else Some(Normal(e))
  {
    PublishedUuid(e);
    assert NodeInv(s, n) && NodeInv(s, e.createdByNodeId.value);
    OriginFilterIsEquality(e.createdByNodeId.value, n);
  }

  lemma ActingClean(s: Cluster, step: Step)
    requires Inv(s) && CleanInv(s) && Enabled(s, step) && Clean(step)
    ensures CleanNode(Next(s, step).events, step.n, Next(s, step).nodes[step.n])
  {
    match step
    case Insert(n, side, _) =>
      TaskFacts(s, n, side);
      InsertClean(s, n, side);
    case Deliver(n, p, expired, _) => DeliverClean(s, n, p, expired);
    case LocalEvent(n, e) => LocalClean(s, n, e);
    case JsonLog(n, side, io) => QuietStageClean(s, step);
    case Post(n, side, token, script) => QuietStageClean(s, step);
    case Publish(n, valueMade) => QuietStageClean(s, step);
  }

  lemma QuietStageClean(s: Cluster, step: Step)
    requires CleanInv(s) && Enabled(s, step) && Clean(step) && (step.JsonLog? || step.Post? || step.Publish?)
    ensures CleanNode(Next(s, step).events, step.n, Next(s, step).nodes[step.n])
  {
    assert CleanNode(s.events, step.n, s.nodes[step.n]);
    QuietStage(s, step);
    CleanKept(s.events, step.n, s.nodes[step.n], NodeNext(s, step));
  }

  lemma CleanKept(events: seq<BadActor>, n: string, node: NodeState, node': NodeState)
    requires CleanNode(events, n, node)
    requires node'.store.table == node.store.table && node'.received == node.received && node'.cfg == node.cfg
    requires node'.incoming.Busy? ==> node.incoming.Busy? && node'.incoming.e == node.incoming.e
    requires Unstored(node.incoming) ==> Unstored(node'.incoming) && node'.incoming.e == node.incoming.e
    ensures CleanNode(events, n, node')
  {
    assert forall p :: p in node.received ==> Handled(n, node, p);
  }

  /** In a clean run a received event leaves the two early stages only by its insert. */
  lemma QuietStage(s: Cluster, step: Step)
    requires CleanInv(s) && Enabled(s, step) && Clean(step) && (step.JsonLog? || step.Post? || step.Publish?)
    ensures var node, node' := s.nodes[step.n], NodeNext(s, step);
            && node'.store.table == node.store.table && node'.received == node.received && node'.cfg == node.cfg
            && (node'.incoming.Busy? ==> node.incoming.Busy? && node'.incoming.e == node.incoming.e)
            && (Unstored(node.incoming) ==> Unstored(node'.incoming) && node'.incoming.e == node.incoming.e)
  {
    assert CleanNode(s.events, step.n, s.nodes[step.n]);
  }

  // ----- no event is lost -----

  lemma SettledStep(s: Cluster, step: Step, e: BadActor)
    requires Inv(s) && CleanInv(s) && Enabled(s, step) && Clean(step) && e in s.events
    ensures Settled(Next(s, step), e)
  {
    assert Settled(s, e);
    var n := e.createdByNodeId.value;
    assert CleanNode(s.events, n, s.nodes[n]);
    SettledKept(s, step, e);
  }

  lemma SettledKept(s: Cluster, step: Step, e: BadActor)
    requires Enabled(s, step) && Clean(step) && Settled(s, e) && s.nodes[e.createdByNodeId.value].cfg.dhtMode
    ensures Settled(Next(s, step), e)
  {
    var n := e.createdByNodeId.value;
    GrowingHistory(s, step);
    TablesGrow(s, step, n);
    if step.n == n {
      if s.nodes[n].local.Busy? && s.nodes[n].local.e == e {
        LocalProgress(s, step, e);
      }
    } else {
      assert Next(s, step).nodes[n] == s.nodes[n];
    }
  }

  /** A local event moves from stage to stage, leaving a row and then a value behind. */
  lemma LocalProgress(s: Cluster, step: Step, e: BadActor)
    requires Enabled(s, step) && Clean(step) && AllUtf8(e) && s.nodes[step.n].cfg.dhtMode
    requires s.nodes[step.n].local.Busy? && s.nodes[step.n].local.e == e
    ensures var s', t, t' := Next(s, step), s.nodes[step.n].local, Next(s, step).nodes[step.n].local;
            && ((t'.Busy? && t'.e == e) || ValueOf(e) in s'.dht)
            && (Unstored(t) ==> (Unstored(t') && t'.e == e) || RowOf(e) in s'.nodes[step.n].store.table)
  {
    var node' := NodeNext(s, step);
    match step
    case JsonLog(n, side, io) =>
    case Insert(n, side, io) =>
      if side.Local? {
        assert node'.store.table == s.nodes[n].store.table + [RowOf(e)];
      }
    case Post(n, side, token, script) =>
    case Deliver(n, p, expired, dbError) =>
    case Publish(n, valueMade) =>
      assert node'.store.puts == s.nodes[n].store.puts + [ToJson(e).value];
  }

  lemma NewValue(s: Cluster, step: Step, p: Payload)
    requires Enabled(s, step) && Clean(step) && p in Next(s, step).dht && p !in s.dht
    ensures step.Publish? && Next(s, step).events == s.events
    ensures AllUtf8(s.nodes[step.n].local.e) && p == ValueOf(s.nodes[step.n].local.e)
  {
  }

  lemma CleanValues(s: Cluster, step: Step, p: Payload)
    requires Inv(s) && CleanInv(s) && Enabled(s, step) && Clean(step) && p in Next(s, step).dht
    ensures IsEventValue(Next(s, step).events, p)
  {
    GrowingHistory(s, step);
    if p in s.dht {
      assert IsEventValue(s.events, p);
      assert forall e :: e in s.events ==> e in Next(s, step).events;
    } else {
      NewValue(s, step, p);
      assert s.nodes[step.n].local.e in s.events;
    }
  }

  lemma NewUuidIsFresh(s: Cluster, step: Step, e: BadActor)
    requires Enabled(s, step) && step.LocalEvent? && e in s.events
    ensures e.eventUuid != step.e.eventUuid
  {
    assert e.eventUuid.Some? ==> e.eventUuid.value in EventUuids(s.events);
  }

  lemma StillDistinct(s: Cluster, step: Step)
    requires DistinctEvents(s.events) && Enabled(s, step)
    ensures DistinctEvents(Next(s, step).events)
  {
    if step.LocalEvent? {
      forall i | 0 <= i < |s.events|
        ensures s.events[i].eventUuid != step.e.eventUuid
      {
        NewUuidIsFresh(s, step, s.events[i]);
      }
    }
  }

  lemma CleanNodesStep(s: Cluster, step: Step, m: string)
    requires Inv(s) && CleanInv(s) && Enabled(s, step) && Clean(step) && m in s.nodes
    ensures m in Next(s, step).nodes && CleanNode(Next(s, step).events, m, Next(s, step).nodes[m])
  {
    GrowingHistory(s, step);
    if m == step.n { ActingClean(s, step); } else { OtherClean(s, step, m); }
  }

  lemma SettledEvents(s: Cluster, step: Step, e: BadActor)
    requires Inv(s) && CleanInv(s) && Enabled(s, step) && Clean(step) && e in Next(s, step).events
    ensures Settled(Next(s, step), e)
  {
    if e in s.events {
      SettledStep(s, step, e);
    } else {
      NewEventSettled(s, step);
    }
  }

  lemma CleanStep(s: Cluster, step: Step)
    requires Inv(s) && CleanInv(s) && Clean(step)
    ensures CleanInv(Next(s, step))
  {
    if Enabled(s, step) {
      var s' := Next(s, step);
      GrowingHistory(s, step);
      forall m | m in s'.nodes
        ensures CleanNode(s'.events, m, s'.nodes[m])
      {
        CleanNodesStep(s, step, m);
      }
      forall e | e in s'.events
        ensures Settled(s', e)
      {
        SettledEvents(s, step, e);
      }
      forall p | p in s'.dht
        ensures IsEventValue(s'.events, p)
      {
        CleanValues(s, step, p);
      }
      StillDistinct(s, step);
    }
  }

  lemma NewEventSettled(s: Cluster, step: Step)
    requires Inv(s) && Enabled(s, step) && Clean(step) && step.LocalEvent?
    ensures Settled(Next(s, step), step.e)
  {
    assert NodeInv(s, step.n);
  }

  /** A cluster at start-up in which every node runs in DHT mode. */
  predicate Start(s: Cluster) {
    Init(s) && forall n :: n in s.nodes ==> s.nodes[n].cfg.dhtMode
  }

  predicate CleanRun(steps: seq<Step>) {
    forall i :: 0 <= i < |steps| ==> Clean(steps[i])
  }

  lemma {:induction false} CleanRunInv(s: Cluster, steps: seq<Step>)
    requires Start(s) && CleanRun(steps)
    ensures CleanInv(Run(s, steps)) && Never(WrongAnswer, s, steps)
  {
    if steps == [] {
    } else {
      var last := |steps| - 1;
      CleanRunInv(s, steps[..last]);
      InvRun(s, steps[..last]);
      CleanStep(Run(s, steps[..last]), steps[last]);
    }
  }

  // ----- convergence -----

  /** No thread is at work, and every value has been delivered to every node at least once. */
  predicate Quiescent(s: Cluster) {
    forall n :: n in s.nodes ==>
      s.nodes[n].local.Idle? && s.nodes[n].incoming.Idle? && forall p :: p in s.dht ==> p in s.nodes[n].received
  }

  function AtNode(n: string): BadActor -> Row {
    e => RowAt(n, e)
  }

  function RowsAt(n: string, events: seq<BadActor>): seq<Row> {
    Map(AtNode(n), events)
  }

  lemma SameUuidSameEvent(s: Cluster, e: BadActor, e': BadActor)
    requires CleanInv(s) && e in s.events && e' in s.events && e.eventUuid == e'.eventUuid
    ensures e == e'
  {
  }

  lemma RowUuid(s: Cluster, n: string, e: BadActor)
    requires CleanInv(s) && e in s.events
    ensures RowAt(n, e).eventUuid == e.eventUuid
  {
    assert Settled(s, e);
  }

  /** The row that carries the UUID of a local event of any node is that event's row. */
  lemma RowWithUuid(s: Cluster, n: string, e: BadActor)
    requires CleanInv(s) && n in s.nodes && e in s.events && e.eventUuid.Some?
    requires e.eventUuid.value in TableUuids(s.nodes[n].store.table)
    ensures RowAt(n, e) in s.nodes[n].store.table
  {
    assert CleanNode(s.events, n, s.nodes[n]);
    var r :| r in s.nodes[n].store.table && r.eventUuid == e.eventUuid;
    assert IsRowOfEvent(s.events, n, r);
    var e' :| e' in s.events && r == RowAt(n, e');
    RowUuid(s, n, e');
    SameUuidSameEvent(s, e, e');
  }

  /** Every event ever generated is in the table of a quiescent node. */
  lemma EventArrived(s: Cluster, n: string, e: BadActor)
    requires Inv(s) && CleanInv(s) && Quiescent(s) && n in s.nodes && e in s.events
    ensures RowAt(n, e) in s.nodes[n].store.table
  {
    assert Settled(s, e);
    if e.createdByNodeId != Some(n) {
      AcceptedValue(s, n, e, false);
      ValueArrived(s, n, e);
      RowWithUuid(s, n, e);
    }
  }

  lemma ValueArrived(s: Cluster, n: string, e: BadActor)
    requires CleanInv(s) && Quiescent(s) && n in s.nodes && Settled(s, e) && e.createdByNodeId != Some(n)
    requires NodeIdOf(ValueOf(e)) == e.createdByNodeId && UuidOf(ValueOf(e)) == e.eventUuid
    ensures e.eventUuid.value in TableUuids(s.nodes[n].store.table)
  {
    assert CleanNode(s.events, n, s.nodes[n]);
    assert Handled(n, s.nodes[n], ValueOf(e));
  }

  lemma RowsAtAreDistinct(s: Cluster, n: string)
    requires CleanInv(s)
    ensures forall i, j :: 0 <= i < j < |s.events| ==> RowsAt(n, s.events)[i] != RowsAt(n, s.events)[j]
  {
    forall i, j | 0 <= i < j < |s.events|
      ensures RowsAt(n, s.events)[i] != RowsAt(n, s.events)[j]
    {
      RowUuid(s, n, s.events[i]);
      RowUuid(s, n, s.events[j]);
    }
  }

  lemma SameRows(s: Cluster, n: string, r: Row)
    requires Inv(s) && CleanInv(s) && Quiescent(s) && n in s.nodes
    ensures r in s.nodes[n].store.table <==> r in RowsAt(n, s.events)
  {
    InMap(AtNode(n), s.events, r);
    if r in s.nodes[n].store.table {
      assert CleanNode(s.events, n, s.nodes[n]);
      assert IsRowOfEvent(s.events, n, r);
    } else if e :| e in s.events && r == RowAt(n, e) {
      EventArrived(s, n, e);
    }
  }

  /**
   * Convergence. The table of each node is a permutation of the rows of all events ever generated: its
   * own as logged, the others with NULL as "".
   */
  lemma Converged(s: Cluster, steps: seq<Step>, n: string)
    requires Start(s) && CleanRun(steps) && Quiescent(Run(s, steps)) && n in Run(s, steps).nodes
    ensures multiset(Run(s, steps).nodes[n].store.table) == multiset(RowsAt(n, Run(s, steps).events))
  {
    var s' := Run(s, steps);
    CleanRunInv(s, steps);
    InvRun(s, steps);
    NoDuplicates(s, steps);
    assert UniqueTable(s'.nodes[n].store.table);
    RowsAtAreDistinct(s', n);
    forall r: Row
      ensures r in s'.nodes[n].store.table <==> r in RowsAt(n, s'.events)
    {
      SameRows(s', n, r);
    }
    SameElementsOnce(s'.nodes[n].store.table, RowsAt(n, s'.events));
  }

  /** Confluence: the order of events, deliveries, repetitions and interleavings leaves no trace. */
  lemma Confluent(s: Cluster, xs: seq<Step>, ys: seq<Step>, n: string)
    requires Start(s) && CleanRun(xs) && CleanRun(ys) && n in s.nodes
    requires Quiescent(Run(s, xs)) && Quiescent(Run(s, ys))
    requires multiset(Run(s, xs).events) == multiset(Run(s, ys).events)
    ensures n in Run(s, xs).nodes && n in Run(s, ys).nodes
    ensures multiset(Run(s, xs).nodes[n].store.table) == multiset(Run(s, ys).nodes[n].store.table)
  {
    InvRun(s, xs);
    InvRun(s, ys);
    Converged(s, xs, n);
    Converged(s, ys, n);
    MapPermutation(AtNode(n), Run(s, xs).events, Run(s, ys).events);
  }

  function NormalRows(rows: seq<Row>): seq<Row> {
    Map(NormalRow, rows)
  }

  lemma NormalRowsAgree(n: string, m: string, events: seq<BadActor>)
    ensures NormalRows(RowsAt(n, events)) == NormalRows(RowsAt(m, events))
  {
    forall i | 0 <= i < |events|
      ensures NormalRow(RowAt(n, events[i])) == NormalRow(RowAt(m, events[i]))
    {
      NormalCommutes(events[i]);
    }
  }

  /** All nodes hold the same events: their tables agree once NULL is read as "". */
  lemma NodesAgree(s: Cluster, steps: seq<Step>, n: string, m: string)
    requires Start(s) && CleanRun(steps) && Quiescent(Run(s, steps))
    requires n in Run(s, steps).nodes && m in Run(s, steps).nodes
    ensures multiset(NormalRows(Run(s, steps).nodes[n].store.table)) ==
            multiset(NormalRows(Run(s, steps).nodes[m].store.table))
  {
    var events := Run(s, steps).events;
    Converged(s, steps, n);
    Converged(s, steps, m);
    MapPermutation(NormalRow, Run(s, steps).nodes[n].store.table, RowsAt(n, events));
    MapPermutation(NormalRow, Run(s, steps).nodes[m].store.table, RowsAt(m, events));
    NormalRowsAgree(n, m, events);
  }
}
