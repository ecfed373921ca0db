/**
 * The replication protocol: any number of nodes and one shared bag of DHT values.
 *
 * Each node runs two threads. The SIP thread works on one local event at a time, the DHT listener on
 * one received value at a time, and the stages of the two interleave freely; in particular a local
 * insert can fall between the listener's "exists?" check and its own insert.
 *
 * A run is any sequence of steps. A step that is not enabled changes nothing.
 */
module Replication {
  import opened Text
  import opened Events
  import opened Node
  import WebHook

  datatype Stage = ToJsonLog | ToInsert | ToPost | ToPublish

  /** `sound` remembers, for a received event, that its event_uuid was absent when it was checked. */
  datatype Task = Idle | Busy(e: BadActor, stage: Stage, sound: bool)

  datatype Side = Local | Incoming

  /**
   * `received` is history: the values whose new-value callback has been invoked on this node. `stopped`: an
   * assertion in the WebHook client has ended the process.
   */
  datatype NodeState = NodeState(
    cfg: Config, store: Store, local: Task, incoming: Task, received: set<Payload>, stopped: bool)

  /** `events` is history: every local event generated so far, on any node. */
  datatype Cluster = Cluster(nodes: map<string, NodeState>, dht: seq<Payload>, events: seq<BadActor>)

  /** A WebHook call meets any cached token: the two threads of a node share it. */
  datatype Step =
    | LocalEvent(n: string, e: BadActor)
    | JsonLog(n: string, side: Side, json: JsonIo)
    | Insert(n: string, side: Side, insert: InsertIo)
    | Post(n: string, side: Side, token: Option<string>, script: seq<WebHook.Attempt>)
    | Publish(n: string, valueMade: bool)
    | Deliver(n: string, p: Payload, expired: bool, dbError: bool)
    | Forge(p: Payload)

  function TaskOf(node: NodeState, side: Side): Task {
    if side.Local? then node.local else node.incoming
  }

  function WithTask(node: NodeState, side: Side, t: Task): NodeState {
    if side.Local? then node.(local := t) else node.(incoming := t)
  }

  /** Where an event goes when a stage has succeeded. */
  function After(cfg: Config, side: Side, t: Task): Task
    requires t.Busy?
  {
    match t.stage
    case ToJsonLog => t.(stage := ToInsert)
    case ToInsert => if cfg.webhookMode then t.(stage := ToPost) else AfterPost(cfg, side, t)
    case ToPost => AfterPost(cfg, side, t)
    case ToPublish => Idle
  }

  function AfterPost(cfg: Config, side: Side, t: Task): Task
    requires t.Busy?
  {
    if side.Local? && cfg.dhtMode then t.(stage := ToPublish) else Idle
  }

  function FirstStage(cfg: Config): Stage {
    if cfg.jsonLogMode then ToJsonLog else ToInsert
  }

  predicate AtStage(s: Cluster, n: string, side: Side, stage: Stage) {
    n in s.nodes && !s.nodes[n].stopped && TaskOf(s.nodes[n], side).Busy? && TaskOf(s.nodes[n], side).stage == stage
  }

  /** Still to be inserted. */
  predicate Unstored(t: Task) {
    t.Busy? && (t.stage.ToJsonLog? || t.stage.ToInsert?)
  }

  function EventUuids(events: seq<BadActor>): set<string> {
    set e | e in events && e.eventUuid.Some? :: e.eventUuid.value
  }

  function DhtUuids(dht: seq<Payload>): set<string> {
    set p | p in dht && UuidOf(p).Some? :: UuidOf(p).value
  }

  /** What `sip_log_event` builds on node n: these fields are always set, the UUID is a fresh one. */
  predicate IsLocalEvent(s: Cluster, n: string, e: BadActor) {
    e.createdByNodeId == Some(n) && e.eventTimestamp.Some? && e.sourceIp.Some? && e.eventUuid.Some? &&
    IsLowerUuid(e.eventUuid.value) && e.eventUuid.value !in EventUuids(s.events) && e.eventUuid.value !in DhtUuids(s.dht)
  }

  /** A UUID that was generated but is not stored yet has not left its node, so nobody can forge it. */
  predicate Guessed(s: Cluster, p: Payload) {
    exists n :: n in s.nodes && Unstored(s.nodes[n].local) && UuidOf(p) == s.nodes[n].local.e.eventUuid
  }

  predicate Enabled(s: Cluster, step: Step) {
    match step
    case LocalEvent(n, e) => n in s.nodes && !s.nodes[n].stopped && s.nodes[n].local.Idle? && IsLocalEvent(s, n, e)
    case JsonLog(n, side, _) => AtStage(s, n, side, ToJsonLog)
    case Insert(n, side, _) => AtStage(s, n, side, ToInsert)
    case Post(n, side, _, _) => AtStage(s, n, side, ToPost)
    case Publish(n, _) => AtStage(s, n, Local, ToPublish)
    case Deliver(n, p, _, _) => n in s.nodes && !s.nodes[n].stopped && s.nodes[n].incoming.Idle? && p in s.dht
    case Forge(p) => !Guessed(s, p)
  }

  /** One stage of one thread of one node. */
  function StageDone(node: NodeState, side: Side, result: (Store, bool)): NodeState
    requires TaskOf(node, side).Busy?
  {
    WithTask(node.(store := result.0), side, if result.1 then After(node.cfg, side, TaskOf(node, side)) else Idle)
  }

  /** A WebHook call that returns, well or not, lets the event go on; an endless one keeps it where it is. */
  function PostDone(node: NodeState, side: Side, outcome: WebHook.Outcome): NodeState
    requires TaskOf(node, side).Busy?
  {
    if Returns(outcome) then StageDone(node, side, (Posted(node.store, TaskOf(node, side).e, outcome), true))
    else node.(stopped := node.stopped || outcome.Aborted?)
  }

  function NodeNext(s: Cluster, step: Step): NodeState
    requires Enabled(s, step) && !step.Forge?
  {
    var node := s.nodes[step.n];
    match step
    case LocalEvent(n, e) => node.(local := Busy(e, FirstStage(node.cfg), true))
    case JsonLog(n, side, io) => StageDone(node, side, JsonLogged(node.store, TaskOf(node, side).e, io))
    case Insert(n, side, io) => StageDone(node, side, RowInserted(node.store, TaskOf(node, side).e, io))
    case Post(n, side, token, script) =>
      PostDone(node, side, WebHookCall(node.cfg, token, TaskOf(node, side).e, script).outcome)
    case Publish(n, valueMade) => StageDone(node, Local, Published(node.store, node.local.e, valueMade))
    case Deliver(n, p, expired, dbError) =>
      var a := Accepted(n, node.store.table, p, expired, dbError);
      node.(received := if expired then node.received else node.received + {p},
            incoming := if a.None? then Idle
                        else Busy(a.value, FirstStage(node.cfg), a.value.eventUuid.value !in TableUuids(node.store.table)))
  }

  function Next(s: Cluster, step: Step): Cluster {
    if !Enabled(s, step) then s
    else if step.Forge? then s.(dht := s.dht + [step.p])
    else
      var node := NodeNext(s, step);
      Cluster(s.nodes[step.n := node],
              if step.Publish? && node.store.puts != s.nodes[step.n].store.puts
              then s.dht + [Object(ToJson(s.nodes[step.n].local.e).value)] else s.dht,
              if step.LocalEvent? then s.events + [step.e] else s.events)
  }

  function Run(s: Cluster, steps: seq<Step>): Cluster {
    if steps == [] then s else Next(Run(s, steps[..|steps| - 1]), steps[|steps| - 1])
  }

  lemma {:induction false} RunConcat(s: Cluster, a: seq<Step>, b: seq<Step>)
    ensures Run(s, a + b) == Run(Run(s, a), b)
  {
    if b == [] {
      assert a + b == a;
    } else {
      RunConcat(s, a, b[..|b| - 1]);
      assert (a + b)[..|a + b| - 1] == a + b[..|b| - 1];
    }
  }

  lemma RunAppend(s: Cluster, steps: seq<Step>, step: Step)
    ensures Run(s, steps + [step]) == Next(Run(s, steps), step)
  {
    assert (steps + [step])[..|steps|] == steps;
  }

  lemma RunOfThree(s: Cluster, a: Step, b: Step, c: Step)
    ensures Run(s, [a, b, c]) == Next(Next(Next(s, a), b), c)
  {
    RunAppend(s, [], a);
    RunAppend(s, [a], b);
    RunAppend(s, [a, b], c);
    assert [] + [a] == [a] && [a] + [b] == [a, b] && [a, b] + [c] == [a, b, c];
  }

  /** No step of the run is `bad` in the state in which it is taken. */
  predicate Never(bad: (Cluster, Step) -> bool, s: Cluster, steps: seq<Step>) {
    steps == [] ||
    (Never(bad, s, steps[..|steps| - 1]) && !bad(Run(s, steps[..|steps| - 1]), steps[|steps| - 1]))
  }

  predicate Init(s: Cluster) {
    s.dht == [] && s.events == [] &&
    forall n :: n in s.nodes ==>
      IsLowerUuid(n) && s.nodes[n].cfg.nodeId == n && s.nodes[n].store == Store([], [], [], []) &&
      s.nodes[n].local.Idle? && s.nodes[n].incoming.Idle? && s.nodes[n].received == {} && !s.nodes[n].stopped
  }

  // ----- the invariant of every run -----

  predicate LocalInv(s: Cluster, n: string, node: NodeState) {
    node.local.Busy? ==>
      node.local.e.createdByNodeId == Some(n) && node.local.e.eventUuid.Some? &&
      node.local.e.sourceIp.Some? && node.local.e.eventTimestamp.Some? &&
      node.local.e.eventUuid.value in EventUuids(s.events) &&
      (Unstored(node.local) ==>
        node.local.e.eventUuid.value !in TableUuids(node.store.table) &&
        node.local.e.eventUuid.value !in DhtUuids(s.dht))
  }

  predicate IncomingInv(s: Cluster, n: string, node: NodeState) {
    node.incoming.Busy? ==>
      node.incoming.e.createdByNodeId.Some? && node.incoming.e.createdByNodeId != Some(n) &&
      node.incoming.e.eventUuid.Some? && node.incoming.e.sourceIp.Some? && node.incoming.e.eventTimestamp.Some? &&
      node.incoming.e.eventUuid.value in DhtUuids(s.dht) &&
      (Unstored(node.incoming) && node.incoming.sound ==>
        node.incoming.e.eventUuid.value !in TableUuids(node.store.table)) &&
      (!node.incoming.sound ==> node.incoming.e.eventUuid.value in TableUuids(node.store.table))
  }

  predicate TableInv(s: Cluster, n: string, node: NodeState) {
    && (forall r :: r in node.store.table ==> r.eventUuid.Some? && r.sourceIp.Some? && r.eventTimestamp.Some?)
    && TableUuids(node.store.table) <= EventUuids(s.events) + DhtUuids(s.dht)
    && (forall r :: r in node.store.table && r.createdByNodeId == Some(n) ==> exists e :: e in s.events && r == RowOf(e))
  }

  predicate NodeInv(s: Cluster, n: string)
    requires n in s.nodes
  {
    var node := s.nodes[n];
    IsUuid(n) && node.cfg.nodeId == n && LocalInv(s, n, node) && IncomingInv(s, n, node) && TableInv(s, n, node)
  }

  predicate Inv(s: Cluster) {
    && (forall n :: n in s.nodes ==> NodeInv(s, n))
    && (forall n :: n in s.nodes && s.nodes[n].local.Busy? ==> s.nodes[n].local.e in s.events)
    && (forall n, m :: n in s.nodes && m in s.nodes && n != m && s.nodes[n].local.Busy? && s.nodes[m].local.Busy? ==>
          s.nodes[n].local.e.eventUuid != s.nodes[m].local.e.eventUuid)
  }

  lemma GrowingHistory(s: Cluster, step: Step)
    ensures DhtUuids(s.dht) <= DhtUuids(Next(s, step).dht)
    ensures EventUuids(s.events) <= EventUuids(Next(s, step).events)
    ensures s.dht <= Next(s, step).dht && s.events <= Next(s, step).events
    ensures Next(s, step).nodes.Keys == s.nodes.Keys
  {
    assert forall p :: p in s.dht ==> p in Next(s, step).dht;
    assert forall e :: e in s.events ==> e in Next(s, step).events;
    if Enabled(s, step) && !step.Forge? {
      assert s.nodes.Keys + {step.n} == s.nodes.Keys;
    }
  }

  lemma DhtUuidsAppend(dht: seq<Payload>, p: Payload)
    ensures DhtUuids(dht + [p]) == DhtUuids(dht) + if UuidOf(p).Some? then {UuidOf(p).value} else {}
  {
    assert forall x :: x in dht + [p] <==> x in dht || x == p;
    if UuidOf(p).Some? {
      assert p in dht + [p];
    }
  }

  lemma EventUuidsAppend(events: seq<BadActor>, e: BadActor)
    ensures EventUuids(events + [e]) == EventUuids(events) + if e.eventUuid.Some? then {e.eventUuid.value} else {}
  {
    assert forall x :: x in events + [e] <==> x in events || x == e;
    if e.eventUuid.Some? {
      assert e in events + [e];
    }
  }

  /** The UUIDs that a step adds to the DHT: never one that some node has generated and not stored. */
  lemma AddedToDht(s: Cluster, step: Step, u: string)
    requires Inv(s) && Enabled(s, step)
    requires u in DhtUuids(Next(s, step).dht) && u !in DhtUuids(s.dht)
    ensures step.Forge? ==> UuidOf(step.p) == Some(u)
    ensures !step.Forge? ==> step.Publish? && s.nodes[step.n].local.e.eventUuid == Some(u)
    ensures forall n :: n in s.nodes && Unstored(s.nodes[n].local) ==> s.nodes[n].local.e.eventUuid != Some(u)
  {
    if step.Forge? {
      DhtUuidsAppend(s.dht, step.p);
    } else {
      var e := s.nodes[step.n].local.e;
      DhtUuidsAppend(s.dht, Object(ToJson(e).value));
      PublishedUuid(e);
      assert NodeInv(s, step.n);
    }
  }

  lemma PublishedUuid(e: BadActor)
    requires ToJson(e).Some?
    ensures UuidOf(Object(ToJson(e).value)) == Filled(e.eventUuid)
    ensures NodeIdOf(Object(ToJson(e).value)) == Filled(e.createdByNodeId)
    ensures FromJson(ToJson(e).value) == Some(Normal(e))
  {
    KeysAreDistinct();
    PackedTexts(KEYS, Texts(e), 3);
    PackedTexts(KEYS, Texts(e), 4);
    JsonRoundTrip(e);
  }

  /** Nodes that do not take the step keep their part of the invariant. */
  lemma OtherNodeInv(s: Cluster, step: Step, m: string)
    requires Inv(s) && Enabled(s, step) && m in s.nodes && (step.Forge? || m != step.n)
    ensures NodeInv(Next(s, step), m)
  {
    GrowingHistory(s, step);
    assert NodeInv(s, m);
    var node := s.nodes[m];
    if Unstored(node.local) {
      var u := node.local.e.eventUuid.value;
      if u in DhtUuids(Next(s, step).dht) {
        AddedToDht(s, step, u);
      }
    }
  }

  /** The invariant of the node that inserts a row, on either thread. */
  lemma InsertTableInv(s: Cluster, n: string, node: NodeState, e: BadActor)
    requires TableInv(s, n, node) && e.eventUuid.Some? && e.sourceIp.Some? && e.eventTimestamp.Some?
    requires e.eventUuid.value in EventUuids(s.events) + DhtUuids(s.dht)
    requires e.createdByNodeId == Some(n) ==> e in s.events
    ensures TableInv(s, n, node.(store := node.store.(table := node.store.table + [RowOf(e)])))
  {
    TableUuidsAppend(node.store.table, RowOf(e));
    assert forall r :: r in node.store.table + [RowOf(e)] <==> r in node.store.table || r == RowOf(e);
  }

  lemma InsertInv(s: Cluster, n: string, side: Side, io: InsertIo)
    requires Inv(s) && AtStage(s, n, side, ToInsert)
    ensures NodeInv(Next(s, Insert(n, side, io)), n)
  {
    var s' := Next(s, Insert(n, side, io));
    var node, node' := s.nodes[n], s'.nodes[n];
    var e := TaskOf(node, side).e;
    assert NodeInv(s, n);
    assert s'.dht == s.dht && s'.events == s.events;
    InsertTableInv(s, n, node, e);
    TableUuidsAppend(node.store.table, RowOf(e));
    assert TableInv(s', n, node');
    assert !Unstored(TaskOf(node', side));
    if side.Local? {
      assert node'.incoming == node.incoming;
    } else {
      assert node'.local == node.local;
    }
  }

  /** A stage that leaves the table alone keeps the invariant of its node. */
  lemma SameTableInv(s: Cluster, s': Cluster, n: string, side: Side)
    requires Inv(s) && n in s.nodes && n in s'.nodes && s'.dht == s.dht && s'.events == s.events
    requires var node, node' := s.nodes[n], s'.nodes[n];
             && node'.store.table == node.store.table && node'.cfg == node.cfg
             && (if side.Local? then node'.incoming == node.incoming else node'.local == node.local)
    requires var t, t' := TaskOf(s.nodes[n], side), TaskOf(s'.nodes[n], side);
             t'.Busy? ==> t.Busy? && t'.e == t.e && t'.sound == t.sound && (Unstored(t') ==> Unstored(t))
    ensures NodeInv(s', n)
  {
    assert NodeInv(s, n);
    assert TableInv(s', n, s'.nodes[n]);
  }

  lemma JsonLogInv(s: Cluster, n: string, side: Side, io: JsonIo)
    requires Inv(s) && AtStage(s, n, side, ToJsonLog)
    ensures NodeInv(Next(s, JsonLog(n, side, io)), n)
  {
    SameTableInv(s, Next(s, JsonLog(n, side, io)), n, side);
  }

  lemma PostInv(s: Cluster, n: string, side: Side, token: Option<string>, script: seq<WebHook.Attempt>)
    requires Inv(s) && AtStage(s, n, side, ToPost)
    ensures NodeInv(Next(s, Post(n, side, token, script)), n)
  {
    SameTableInv(s, Next(s, Post(n, side, token, script)), n, side);
  }

  lemma PublishInv(s: Cluster, n: string, valueMade: bool)
    requires Inv(s) && Enabled(s, Publish(n, valueMade))
    ensures NodeInv(Next(s, Publish(n, valueMade)), n)
  {
    var s' := Next(s, Publish(n, valueMade));
    var node, node' := s.nodes[n], s'.nodes[n];
    GrowingHistory(s, Publish(n, valueMade));
    assert NodeInv(s, n);
    assert node'.local.Idle? && node'.incoming == node.incoming;
    assert node'.store.table == node.store.table && s'.events == s.events;
  }

  lemma DeliverInv(s: Cluster, n: string, p: Payload, expired: bool, dbError: bool)
    requires Inv(s) && Enabled(s, Deliver(n, p, expired, dbError))
    ensures NodeInv(Next(s, Deliver(n, p, expired, dbError)), n)
  {
    var a := Accepted(n, s.nodes[n].store.table, p, expired, dbError);
    assert NodeInv(s, n);
    if a.Some? {
      OriginFilterIsEquality(NodeIdOf(p).value, n);
      assert UuidOf(p).value in DhtUuids(s.dht);
    }
  }

  lemma LocalEventInv(s: Cluster, n: string, e: BadActor)
    requires Inv(s) && Enabled(s, LocalEvent(n, e))
    ensures NodeInv(Next(s, LocalEvent(n, e)), n)
  {
    assert NodeInv(s, n);
    EventUuidsAppend(s.events, e);
    assert forall x :: x in s.events ==> x in s.events + [e];
  }

  lemma ActingNodeInv(s: Cluster, step: Step)
    requires Inv(s) && Enabled(s, step) && !step.Forge?
    ensures NodeInv(Next(s, step), step.n)
  {
    match step
    case LocalEvent(n, e) => LocalEventInv(s, n, e);
    case Insert(n, side, io) => InsertInv(s, n, side, io);
    case Deliver(n, p, expired, dbError) => DeliverInv(s, n, p, expired, dbError);
    case JsonLog(n, side, io) => JsonLogInv(s, n, side, io);
    case Post(n, side, token, script) => PostInv(s, n, side, token, script);
    case Publish(n, valueMade) => PublishInv(s, n, valueMade);
  }

  lemma InvStep(s: Cluster, step: Step)
    requires Inv(s)
    ensures Inv(Next(s, step))
  {
    if Enabled(s, step) {
      var s' := Next(s, step);
      GrowingHistory(s, step);
      forall m | m in s'.nodes
        ensures NodeInv(s', m)
      {
        if !step.Forge? && m == step.n { ActingNodeInv(s, step); } else { OtherNodeInv(s, step, m); }
      }
      LocalTasksDiffer(s, step);
    }
  }

  /** Which local event a node works on after a step: a new one, or the one it had before. */
  lemma LocalTaskAfter(s: Cluster, step: Step, n: string)
    requires Enabled(s, step) && n in s.nodes && Next(s, step).nodes[n].local.Busy?
    ensures step.LocalEvent? && n == step.n ==> Next(s, step).nodes[n].local.e == step.e
    ensures !(step.LocalEvent? && n == step.n) ==>
              s.nodes[n].local.Busy? && Next(s, step).nodes[n].local.e == s.nodes[n].local.e
  {
  }

  lemma NewUuidDiffers(s: Cluster, step: Step, m: string)
    requires Inv(s) && Enabled(s, step) && step.LocalEvent? && m in s.nodes && s.nodes[m].local.Busy?
    ensures s.nodes[m].local.e.eventUuid != step.e.eventUuid
  {
    assert NodeInv(s, m);
  }

  lemma LocalTasksDiffer(s: Cluster, step: Step)
    requires Inv(s) && Enabled(s, step)
    ensures forall n :: n in s.nodes && Next(s, step).nodes[n].local.Busy? ==>
              Next(s, step).nodes[n].local.e in Next(s, step).events
    ensures forall n, m | n in s.nodes && m in s.nodes && n != m ::
              Next(s, step).nodes[n].local.Busy? && Next(s, step).nodes[m].local.Busy? ==>
              Next(s, step).nodes[n].local.e.eventUuid != Next(s, step).nodes[m].local.e.eventUuid
  {
    var s' := Next(s, step);
    GrowingHistory(s, step);
    forall n | n in s.nodes && s'.nodes[n].local.Busy?
      ensures s'.nodes[n].local.e in s'.events
    {
      LocalTaskAfter(s, step, n);
    }
    forall n, m | n in s.nodes && m in s.nodes && n != m && s'.nodes[n].local.Busy? && s'.nodes[m].local.Busy?
      ensures s'.nodes[n].local.e.eventUuid != s'.nodes[m].local.e.eventUuid
    {
      LocalTaskAfter(s, step, n);
      LocalTaskAfter(s, step, m);
      if step.LocalEvent? && n == step.n {
        NewUuidDiffers(s, step, m);
      } else if step.LocalEvent? && m == step.n {
        NewUuidDiffers(s, step, n);
      }
    }
  }

  lemma {:induction false} InvRun(s: Cluster, steps: seq<Step>)
    requires Init(s)
    ensures Inv(Run(s, steps))
    ensures Run(s, steps).nodes.Keys == s.nodes.Keys
  {
    if steps == [] {
    } else {
      var last := |steps| - 1;
      InvRun(s, steps[..last]);
      InvStep(Run(s, steps[..last]), steps[last]);
      GrowingHistory(Run(s, steps[..last]), steps[last]);
    }
  }

  lemma {:induction false} ConfigStays(s: Cluster, steps: seq<Step>, n: string)
    requires n in s.nodes
    ensures n in Run(s, steps).nodes && Run(s, steps).nodes[n].cfg == s.nodes[n].cfg
  {
    if steps != [] {
      ConfigStays(s, steps[..|steps| - 1], n);
      GrowingHistory(Run(s, steps[..|steps| - 1]), steps[|steps| - 1]);
    }
  }

  lemma {:induction false} NodesStay(s: Cluster, steps: seq<Step>)
    ensures Run(s, steps).nodes.Keys == s.nodes.Keys
  {
    if steps != [] {
      NodesStay(s, steps[..|steps| - 1]);
      GrowingHistory(Run(s, steps[..|steps| - 1]), steps[|steps| - 1]);
    }
  }
}
