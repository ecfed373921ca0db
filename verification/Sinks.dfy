/**
 * Where events end up, over whole runs with arbitrary failures: lines of the JSON log against rows of the table,
 * and the DHT puts and WebHook posts that the table contains.
 */
module Sinks {
  import opened Text
  import opened Events
  import opened Node
  import opened Replication
  import WebHook

  /** The row that a JSON object written by this program describes. */
  function Recorded(o: JsonObject): Row {
    if FromJson(o).Some? then RowOf(FromJson(o).value)
    else Row(None, None, None, None, None, None, None, None, None, None)
  }

  // Multiset inclusion is stated by counting: for every property `key` of rows, the larger collection
  // holds at least as many rows with that property.

  function Count(key: Row -> bool, r: Row): nat {
    if key(r) then 1 else 0
  }

  function LinesWith(key: Row -> bool, log: seq<JsonObject>): nat {
    if log == [] then 0 else LinesWith(key, log[..|log| - 1]) + Count(key, Recorded(log[|log| - 1]))
  }

  function RowsWith(key: Row -> bool, table: seq<Row>): nat {
    if table == [] then 0 else RowsWith(key, table[..|table| - 1]) + Count(key, NormalRow(table[|table| - 1]))
  }

  /** Only the rows that carry node n's own id. */
  function OwnRowsWith(key: Row -> bool, n: string, table: seq<Row>): nat {
    if table == [] then 0
    else OwnRowsWith(key, n, table[..|table| - 1]) +
         if table[|table| - 1].createdByNodeId == Some(n) then Count(key, NormalRow(table[|table| - 1])) else 0
  }

  lemma LinesAppend(key: Row -> bool, log: seq<JsonObject>, e: BadActor)
    requires ToJson(e).Some?
    ensures LinesWith(key, log + [ToJson(e).value]) == LinesWith(key, log) + Count(key, NormalRow(RowOf(e)))
  {
    assert (log + [ToJson(e).value])[..|log|] == log;
    JsonRoundTrip(e);
    NormalCommutes(e);
  }

  lemma RowsAppend(key: Row -> bool, n: string, table: seq<Row>, r: Row)
    ensures RowsWith(key, table + [r]) == RowsWith(key, table) + Count(key, NormalRow(r))
    ensures OwnRowsWith(key, n, table + [r]) ==
            OwnRowsWith(key, n, table) + if r.createdByNodeId == Some(n) then Count(key, NormalRow(r)) else 0
  {
    assert (table + [r])[..|table|] == table;
  }

  lemma {:induction false} OwnRowsAreRows(key: Row -> bool, n: string, table: seq<Row>)
    ensures OwnRowsWith(key, n, table) <= RowsWith(key, table)
  {
    if table != [] {
      OwnRowsAreRows(key, n, table[..|table| - 1]);
    }
  }

  /** A task logged and about to be inserted; inserted and about to be posted; inserted and not yet put. */
  function Inserting(key: Row -> bool, t: Task): nat {
    if t.Busy? && t.stage.ToInsert? then Count(key, NormalRow(RowOf(t.e))) else 0
  }

  function Posting(key: Row -> bool, t: Task): nat {
    if t.Busy? && t.stage.ToPost? then Count(key, NormalRow(RowOf(t.e))) else 0
  }

  function Putting(key: Row -> bool, t: Task): nat {
    if t.Busy? && (t.stage.ToPost? || t.stage.ToPublish?) then Count(key, NormalRow(RowOf(t.e))) else 0
  }

  predicate Chain(key: Row -> bool, n: string, node: NodeState) {
    && LinesWith(key, node.store.puts) + Putting(key, node.local) <= OwnRowsWith(key, n, node.store.table)
    && LinesWith(key, node.store.posts) + Posting(key, node.local) + Posting(key, node.incoming)
       <= RowsWith(key, node.store.table)
  }

  lemma JsonLogChain(key: Row -> bool, n: string, node: NodeState, side: Side, io: JsonIo)
    requires TaskOf(node, side).Busy? && TaskOf(node, side).stage.ToJsonLog? && Chain(key, n, node)
    ensures Chain(key, n, StageDone(node, side, JsonLogged(node.store, TaskOf(node, side).e, io)))
  {
    var node' := StageDone(node, side, JsonLogged(node.store, TaskOf(node, side).e, io));
    assert node'.store.table == node.store.table;
    assert node'.store.puts == node.store.puts && node'.store.posts == node.store.posts;
  }

  /** What an event counts for before and after its insert. */
  lemma InsertedTask(key: Row -> bool, cfg: Config, side: Side, t: Task)
    requires t.Busy? && t.stage.ToInsert?
    ensures var c, t' := Count(key, NormalRow(RowOf(t.e))), After(cfg, side, t);
            && Inserting(key, t) == c && Posting(key, t) == Putting(key, t) == 0
            && Inserting(key, t') == 0 && Posting(key, t') <= c && Putting(key, t') <= c
  {
  }

  lemma InsertLocalChain(key: Row -> bool, n: string, node: NodeState, io: InsertIo)
    requires node.local.Busy? && node.local.stage.ToInsert? && Chain(key, n, node)
    requires node.local.e.createdByNodeId == Some(n)
    ensures Chain(key, n, StageDone(node, Local, RowInserted(node.store, node.local.e, io)))
  {
    InsertedTask(key, node.cfg, Local, node.local);
    RowsAppend(key, n, node.store.table, RowOf(node.local.e));
  }

  lemma InsertIncomingChain(key: Row -> bool, n: string, node: NodeState, io: InsertIo)
    requires node.incoming.Busy? && node.incoming.stage.ToInsert? && Chain(key, n, node)
    ensures Chain(key, n, StageDone(node, Incoming, RowInserted(node.store, node.incoming.e, io)))
  {
    InsertedTask(key, node.cfg, Incoming, node.incoming);
    RowsAppend(key, n, node.store.table, RowOf(node.incoming.e));
  }

  lemma InsertChain(key: Row -> bool, n: string, node: NodeState, side: Side, io: InsertIo)
    requires TaskOf(node, side).Busy? && TaskOf(node, side).stage.ToInsert? && Chain(key, n, node)
    requires side.Local? ==> node.local.e.createdByNodeId == Some(n)
    ensures Chain(key, n, StageDone(node, side, RowInserted(node.store, TaskOf(node, side).e, io)))
  {
    if side.Local? {
      InsertLocalChain(key, n, node, io);
    } else {
      InsertIncomingChain(key, n, node, io);
    }
  }

  lemma PostChain(key: Row -> bool, n: string, node: NodeState, side: Side, outcome: WebHook.Outcome)
    requires TaskOf(node, side).Busy? && TaskOf(node, side).stage.ToPost? && Chain(key, n, node)
    ensures Chain(key, n, PostDone(node, side, outcome))
  {
    var e := TaskOf(node, side).e;
    var node' := PostDone(node, side, outcome);
    assert node'.store.table == node.store.table && node'.store.puts == node.store.puts;
    if ToJson(e).Some? {
      LinesAppend(key, node.store.posts, e);
    }
  }

  lemma PublishChain(key: Row -> bool, n: string, node: NodeState, valueMade: bool)
    requires node.local.Busy? && node.local.stage.ToPublish? && Chain(key, n, node)
    ensures Chain(key, n, StageDone(node, Local, Published(node.store, node.local.e, valueMade)))
  {
    if ToJson(node.local.e).Some? {
      LinesAppend(key, node.store.puts, node.local.e);
    }
  }

  /** A new task has written nothing yet. */
  lemma NewTaskChain(key: Row -> bool, s: Cluster, step: Step)
    requires Enabled(s, step) && (step.LocalEvent? || step.Deliver?) && Chain(key, step.n, s.nodes[step.n])
    ensures Chain(key, step.n, NodeNext(s, step))
  {
    var node, node' := s.nodes[step.n], NodeNext(s, step);
    var side := if step.LocalEvent? then Local else Incoming;
    assert node'.store == node.store && node'.cfg == node.cfg;
    assert node' == WithTask(node, side, TaskOf(node', side)).(received := node'.received);
    assert TaskOf(node', side).Busy? ==> TaskOf(node', side).stage == FirstStage(node.cfg);
    FirstStageWritesNothing(key, step.n, node, side, TaskOf(node', side));
  }

  lemma FirstStageWritesNothing(key: Row -> bool, n: string, node: NodeState, side: Side, t: Task)
    requires Chain(key, n, node) && TaskOf(node, side).Idle? && (t.Busy? ==> t.stage == FirstStage(node.cfg))
    ensures Chain(key, n, WithTask(node, side, t))
  {
  }

  lemma ChainStep(key: Row -> bool, s: Cluster, step: Step, n: string)
    requires Inv(s) && n in s.nodes && Chain(key, n, s.nodes[n])
    ensures n in Next(s, step).nodes && Chain(key, n, Next(s, step).nodes[n])
  {
    GrowingHistory(s, step);
    if Enabled(s, step) && !step.Forge? && step.n == n {
      var node := s.nodes[n];
      assert NodeInv(s, n);
      assert Next(s, step).nodes[n] == NodeNext(s, step);
      match step
      case LocalEvent(_, e) => NewTaskChain(key, s, step);
      case Deliver(_, p, expired, dbError) => NewTaskChain(key, s, step);
      case JsonLog(_, side, io) => JsonLogChain(key, n, node, side, io);
      case Insert(_, side, io) => InsertChain(key, n, node, side, io);
      case Post(_, side, token, script) =>
        PostChain(key, n, node, side, WebHookCall(node.cfg, token, TaskOf(node, side).e, script).outcome);
      case Publish(_, valueMade) => PublishChain(key, n, node, valueMade);
    }
  }

  // ----- the log and the table -----

  /** What a lost line, and what a line whose event is then dropped, count for. */
  function LostBy(key: Row -> bool, s: Cluster, step: Step, n: string): nat {
    if LosesLine(n)(s, step) then Count(key, NormalRow(RowOf(TaskOf(s.nodes[n], step.side).e))) else 0
  }

  function DroppedBy(key: Row -> bool, s: Cluster, step: Step, n: string): nat {
    if DropsEvent(n)(s, step) then Count(key, NormalRow(RowOf(TaskOf(s.nodes[n], step.side).e))) else 0
  }

  /** fprintf fails, fclose does not: the event goes on without its line. */
  function LosesLine(n: string): (Cluster, Step) -> bool {
    (s: Cluster, step: Step) =>
      step.JsonLog? && step.n == n && Enabled(s, step) && step.json.LineLost? && ToJson(TaskOf(s.nodes[n], step.side).e).Some?
  }

  /** The line is in the log, but fclose fails or no row is inserted, and the event goes no further. */
  function DropsEvent(n: string): (Cluster, Step) -> bool {
    (s: Cluster, step: Step) =>
      (step.JsonLog? && step.n == n && Enabled(s, step) && step.json.CloseFailed? && step.json.complete &&
       ToJson(TaskOf(s.nodes[n], step.side).e).Some?) ||
      (step.Insert? && step.n == n && Enabled(s, step) && step.insert.NotInserted?)
  }

  function Lost(key: Row -> bool, s: Cluster, steps: seq<Step>, n: string): nat {
    if steps == [] then 0
    else Lost(key, s, steps[..|steps| - 1], n) + LostBy(key, Run(s, steps[..|steps| - 1]), steps[|steps| - 1], n)
  }

  function Dropped(key: Row -> bool, s: Cluster, steps: seq<Step>, n: string): nat {
    if steps == [] then 0
    else Dropped(key, s, steps[..|steps| - 1], n) + DroppedBy(key, Run(s, steps[..|steps| - 1]), steps[|steps| - 1], n)
  }

  /** Every line is that of a row, of an event about to be inserted, or of a dropped one; lost lines make up the rest. */
  predicate Balance(key: Row -> bool, node: NodeState, lost: nat, dropped: nat) {
    node.cfg.jsonLogMode ==>
      LinesWith(key, node.store.jsonLog) + lost ==
      RowsWith(key, node.store.table) + Inserting(key, node.local) + Inserting(key, node.incoming) + dropped
  }

  /** What is in the log after the stage, and how much of the event is on its way to the table. */
  lemma JsonLogLines(key: Row -> bool, node: NodeState, side: Side, io: JsonIo)
    requires TaskOf(node, side).Busy? && TaskOf(node, side).stage.ToJsonLog?
    ensures var e := TaskOf(node, side).e;
            var c := if ToJson(e).Some? then Count(key, NormalRow(RowOf(e))) else 0;
            var (st, ok) := JsonLogged(node.store, e, io);
            && st.table == node.store.table
            && LinesWith(key, st.jsonLog) ==
               LinesWith(key, node.store.jsonLog) + (if io.Written? || (io.CloseFailed? && io.complete) then c else 0)
            && Inserting(key, if ok then After(node.cfg, side, TaskOf(node, side)) else Idle) ==
               if io.Written? || io.LineLost? then c else 0
  {
    var e := TaskOf(node, side).e;
    if ToJson(e).Some? {
      LinesAppend(key, node.store.jsonLog, e);
    }
  }

  lemma JsonLogBalance(key: Row -> bool, node: NodeState, side: Side, io: JsonIo, lost: nat, dropped: nat)
    requires TaskOf(node, side).Busy? && TaskOf(node, side).stage.ToJsonLog? && Balance(key, node, lost, dropped)
    ensures var e := TaskOf(node, side).e;
            var c := if ToJson(e).Some? then Count(key, NormalRow(RowOf(e))) else 0;
            Balance(key, StageDone(node, side, JsonLogged(node.store, e, io)),
                    lost + (if io.LineLost? then c else 0), dropped + if io.CloseFailed? && io.complete then c else 0)
  {
    JsonLogLines(key, node, side, io);
  }

  lemma InsertBalance(key: Row -> bool, n: string, node: NodeState, side: Side, io: InsertIo, lost: nat, dropped: nat)
    requires TaskOf(node, side).Busy? && TaskOf(node, side).stage.ToInsert? && Balance(key, node, lost, dropped)
    ensures var e := TaskOf(node, side).e;
            Balance(key, StageDone(node, side, RowInserted(node.store, e, io)), lost,
                    dropped + if io.NotInserted? then Count(key, NormalRow(RowOf(e))) else 0)
  {
    var t := TaskOf(node, side);
    var node' := StageDone(node, side, RowInserted(node.store, t.e, io));
    assert node'.cfg == node.cfg && node'.store.jsonLog == node.store.jsonLog;
    InsertedTask(key, node.cfg, side, t);
    RowsAppend(key, n, node.store.table, RowOf(t.e));
  }

  /** A stage behind the insert, or a new task in front of the log. */
  lemma OtherBalance(key: Row -> bool, node: NodeState, node': NodeState, lost: nat, dropped: nat)
    requires Balance(key, node, lost, dropped) && node'.cfg == node.cfg
    requires node'.store.jsonLog == node.store.jsonLog && node'.store.table == node.store.table
    requires node.cfg.jsonLogMode ==>
               Inserting(key, node'.local) == Inserting(key, node.local) &&
               Inserting(key, node'.incoming) == Inserting(key, node.incoming)
    ensures Balance(key, node', lost, dropped)
  {
  }

  lemma OtherStep(key: Row -> bool, s: Cluster, step: Step, lost: nat, dropped: nat)
    requires Enabled(s, step) && (step.LocalEvent? || step.Deliver? || step.Post? || step.Publish?)
    requires Balance(key, s.nodes[step.n], lost, dropped)
    ensures Balance(key, NodeNext(s, step), lost, dropped)
  {
    OtherBalance(key, s.nodes[step.n], NodeNext(s, step), lost, dropped);
  }

  lemma BalanceStep(key: Row -> bool, s: Cluster, step: Step, n: string, lost: nat, dropped: nat)
    requires n in s.nodes && Balance(key, s.nodes[n], lost, dropped)
    ensures n in Next(s, step).nodes
    ensures Balance(key, Next(s, step).nodes[n], lost + LostBy(key, s, step, n), dropped + DroppedBy(key, s, step, n))
  {
    GrowingHistory(s, step);
    if Enabled(s, step) && !step.Forge? && step.n == n {
      var node := s.nodes[n];
      assert Next(s, step).nodes[n] == NodeNext(s, step);
      match step
      case JsonLog(_, side, io) => JsonLogBalance(key, node, side, io, lost, dropped);
      case Insert(_, side, io) => InsertBalance(key, n, node, side, io, lost, dropped);
      case _ => OtherStep(key, s, step, lost, dropped);
    }
  }

  /** In every run, with any failures: the lines and the lost lines are the rows, what is on its way, and what was dropped. */
  lemma {:induction false} LogBalance(key: Row -> bool, s: Cluster, steps: seq<Step>, n: string)
    requires Init(s) && n in s.nodes
    ensures n in Run(s, steps).nodes
    ensures Balance(key, Run(s, steps).nodes[n], Lost(key, s, steps, n), Dropped(key, s, steps, n))
  {
    if steps != [] {
      var last := |steps| - 1;
      LogBalance(key, s, steps[..last], n);
      BalanceStep(key, Run(s, steps[..last]), steps[last], n,
                  Lost(key, s, steps[..last], n), Dropped(key, s, steps[..last], n));
    }
  }

  lemma {:induction false} NothingLost(key: Row -> bool, s: Cluster, steps: seq<Step>, n: string)
    requires Never(LosesLine(n), s, steps)
    ensures Lost(key, s, steps, n) == 0
  {
    if steps != [] {
      NothingLost(key, s, steps[..|steps| - 1], n);
    }
  }

  /** With JSON logging on, the log contains the rows exactly if no more lines got lost than events were left behind. */
  lemma LogContainsTableExactly(key: Row -> bool, s: Cluster, steps: seq<Step>, n: string)
    requires Init(s) && n in s.nodes && s.nodes[n].cfg.jsonLogMode
    ensures n in Run(s, steps).nodes
    ensures var node := Run(s, steps).nodes[n];
            RowsWith(key, node.store.table) <= LinesWith(key, node.store.jsonLog) <==>
            Lost(key, s, steps, n) <=
            Dropped(key, s, steps, n) + Inserting(key, node.local) + Inserting(key, node.incoming)
  {
    ConfigStays(s, steps, n);
    LogBalance(key, s, steps, n);
  }

  // ----- all sinks -----

  /**
   * In every run, on every node and for every property of rows: the table contains the WebHook posts, the node's
   * own rows contain its DHT puts, and with JSON logging on the log contains the table if no line got lost.
   */
  lemma {:induction false} SinkChain(key: Row -> bool, s: Cluster, steps: seq<Step>, n: string)
    requires Init(s) && n in s.nodes
    ensures n in Run(s, steps).nodes && Chain(key, n, Run(s, steps).nodes[n])
    ensures var node := Run(s, steps).nodes[n];
            && (node.cfg.jsonLogMode && Never(LosesLine(n), s, steps) ==>
                  RowsWith(key, node.store.table) <= LinesWith(key, node.store.jsonLog))
            && LinesWith(key, node.store.posts) <= RowsWith(key, node.store.table)
            && LinesWith(key, node.store.puts) <= OwnRowsWith(key, n, node.store.table) <= RowsWith(key, node.store.table)
  {
    if steps == [] {
    } else {
      var last := |steps| - 1;
      SinkChain(key, s, steps[..last], n);
      InvRun(s, steps[..last]);
      ChainStep(key, Run(s, steps[..last]), steps[last], n);
    }
    OwnRowsAreRows(key, n, Run(s, steps).nodes[n].store.table);
    LogBalance(key, s, steps, n);
    if Never(LosesLine(n), s, steps) {
      NothingLost(key, s, steps, n);
    }
  }

  /** One node with JSON logging on. */
  function Logging(n: string): Cluster {
    Cluster(map[n := NodeState(Config(n, true, false, false, false), Store([], [], [], []), Idle, Idle, {}, false)], [], [])
  }

  /** A run that ends with a row and no line: fprintf failed and fclose did not. */
  lemma RowWithoutLine(n: string, e: BadActor)
    requires IsLowerUuid(n) && IsLocalEvent(Logging(n), n, e) && ToJson(e).Some?
    ensures var s := Run(Logging(n), [LocalEvent(n, e), JsonLog(n, Local, LineLost), Insert(n, Local, Inserted)]);
            Init(Logging(n)) && n in s.nodes && s.nodes[n].store == Store([], [RowOf(e)], [], [])
  {
    var a, b, c := LocalEvent(n, e), JsonLog(n, Local, LineLost), Insert(n, Local, Inserted);
    RunOfThree(Logging(n), a, b, c);
    var s1 := Next(Logging(n), a);
    assert s1.nodes[n].local == Busy(e, ToJsonLog, true);
    var s2 := Next(s1, b);
    assert s2.nodes[n].local == Busy(e, ToInsert, true);
  }

  lemma {:induction false} AllLines(log: seq<JsonObject>)
    ensures LinesWith(r => true, log) == |log|
  {
    if log != [] {
      AllLines(log[..|log| - 1]);
    }
  }

  /** A node never puts more values on the DHT than it has logged local events. */
  lemma PutsAreBounded(s: Cluster, steps: seq<Step>, n: string)
    requires Init(s) && n in s.nodes
    ensures n in Run(s, steps).nodes
    ensures |Run(s, steps).nodes[n].store.puts| <= OwnRowsWith(r => true, n, Run(s, steps).nodes[n].store.table)
  {
    SinkChain(r => true, s, steps, n);
    AllLines(Run(s, steps).nodes[n].store.puts);
  }

  // ----- the protocol's stages are the node's calls -----

  /** The call of a node has come to this end. */
  predicate EndsAs(node: NodeState, side: Side, outcome: WebHook.Outcome) {
    (Returns(outcome) ==> TaskOf(node, side).Idle? && !node.stopped) &&
    (!Returns(outcome) ==> TaskOf(node, side).Busy? && TaskOf(node, side).stage.ToPost?) &&
    (node.stopped <==> outcome.Aborted?)
  }

  /** The stages of one received value, uninterrupted, have the effect of `dht_value_callback`. */
  lemma CallbackIsItsStages(
    s: Cluster, n: string, token: Option<string>, p: Payload, expired: bool, dbError: bool, io: LogIo)
    requires Enabled(s, Deliver(n, p, expired, dbError)) && s.nodes[n].cfg.nodeId == n
    ensures var s1 := Next(s, Deliver(n, p, expired, dbError));
            var s2 := Next(s1, JsonLog(n, Incoming, io.json));
            var s3 := Next(s2, Insert(n, Incoming, io.insert));
            var s4 := Next(s3, Post(n, Incoming, token, io.script));
            var (st, r) := Received(s.nodes[n].cfg, s.nodes[n].store, token, p, expired, dbError, io);
            n in s4.nodes && EndsAs(s4.nodes[n], Incoming, r.outcome) && s4.nodes[n].store == st
  {
    var node := s.nodes[n];
    var a := Accepted(n, node.store.table, p, expired, dbError);
    var s1 := Next(s, Deliver(n, p, expired, dbError));
    assert s1.nodes[n].store == node.store;
    if a.Some? {
      LogStages(s1, n, Incoming, token, a.value, io);
    }
  }

  lemma JsonLogStage(s: Cluster, n: string, side: Side, io: JsonIo)
    requires n in s.nodes && !s.nodes[n].stopped && TaskOf(s.nodes[n], side).Busy?
    requires TaskOf(s.nodes[n], side).stage == FirstStage(s.nodes[n].cfg)
    ensures var node, node' := s.nodes[n], Next(s, JsonLog(n, side, io)).nodes[n];
            var t := TaskOf(node, side);
            var (st, ok) := if node.cfg.jsonLogMode then JsonLogged(node.store, t.e, io) else (node.store, true);
            node' == WithTask(node.(store := st), side, if ok then t.(stage := ToInsert) else Idle)
    ensures n in Next(s, JsonLog(n, side, io)).nodes
  {
  }

  lemma InsertStage(s: Cluster, n: string, side: Side, io: InsertIo)
    requires n in s.nodes && !s.nodes[n].stopped
    requires TaskOf(s.nodes[n], side).Busy? ==> TaskOf(s.nodes[n], side).stage.ToInsert?
    ensures n in Next(s, Insert(n, side, io)).nodes
    ensures var node, node' := s.nodes[n], Next(s, Insert(n, side, io)).nodes[n];
            var t := TaskOf(node, side);
            if t.Idle? then node' == node else
            var (st, ok) := RowInserted(node.store, t.e, io);
            node' == WithTask(node.(store := st), side, if ok then After(node.cfg, side, t) else Idle)
  {
  }

  lemma PostStage(s: Cluster, n: string, side: Side, token: Option<string>, script: seq<WebHook.Attempt>)
    requires n in s.nodes && !s.nodes[n].stopped
    requires TaskOf(s.nodes[n], side).Busy? ==> !TaskOf(s.nodes[n], side).stage.ToInsert?
    ensures n in Next(s, Post(n, side, token, script)).nodes
    ensures var node, node' := s.nodes[n], Next(s, Post(n, side, token, script)).nodes[n];
            var t := TaskOf(node, side);
            if t.Idle? || !t.stage.ToPost? then node' == node
            else node' == PostDone(node, side, WebHookCall(node.cfg, token, t.e, script).outcome)
  {
  }

  /** A node after the first two stages of its task: the event is stored and goes on, or the thread is idle again. */
  function Stored(node: NodeState, side: Side, json: JsonIo, insert: InsertIo): NodeState
    requires TaskOf(node, side).Busy?
  {
    var t := TaskOf(node, side);
    var (st1, ok1) := if node.cfg.jsonLogMode then JsonLogged(node.store, t.e, json) else (node.store, true);
    var (st2, ok2) := if ok1 then RowInserted(st1, t.e, insert) else (st1, false);
    WithTask(node.(store := st2), side, if ok2 then After(node.cfg, side, t.(stage := ToInsert)) else Idle)
  }

  /** And after its WebHook call. */
  function Called(node: NodeState, side: Side, token: Option<string>, script: seq<WebHook.Attempt>): NodeState {
    var t := TaskOf(node, side);
    if t.Idle? || !t.stage.ToPost? then node
    else PostDone(node, side, WebHookCall(node.cfg, token, t.e, script).outcome)
  }

  lemma StoreStages(s: Cluster, n: string, side: Side, json: JsonIo, insert: InsertIo)
    requires n in s.nodes && !s.nodes[n].stopped && TaskOf(s.nodes[n], side).Busy?
    requires TaskOf(s.nodes[n], side).stage == FirstStage(s.nodes[n].cfg)
    ensures var s2 := Next(Next(s, JsonLog(n, side, json)), Insert(n, side, insert));
            n in s2.nodes && s2.nodes[n] == Stored(s.nodes[n], side, json, insert)
  {
    var s1 := Next(s, JsonLog(n, side, json));
    JsonLogStage(s, n, side, json);
    InsertStage(s1, n, side, insert);
  }

  /** What the three stages make of a node, side by side with `bad_actor_log`. */
  predicate IsLogged(node: NodeState, node': NodeState, side: Side, token: Option<string>, e: BadActor, io: LogIo) {
    var (st, r) := Logged(node.cfg, node.store, token, e, io);
    && node'.store == st && node'.cfg == node.cfg
    && if r.outcome.Success? && side.Local? && node.cfg.dhtMode
       then !node'.stopped && TaskOf(node', side).Busy? && TaskOf(node', side).e == e && TaskOf(node', side).stage == ToPublish
       else EndsAs(node', side, r.outcome)
  }

  lemma LoggedNode(node: NodeState, side: Side, token: Option<string>, io: LogIo)
    requires !node.stopped && TaskOf(node, side).Busy?
    ensures IsLogged(node, Called(Stored(node, side, io.json, io.insert), side, token, io.script), side, token,
                     TaskOf(node, side).e, io)
  {
    var stored := Stored(node, side, io.json, io.insert);
    assert stored.cfg == node.cfg && !stored.stopped;
  }

  lemma LogStages(s: Cluster, n: string, side: Side, token: Option<string>, e: BadActor, io: LogIo)
    requires n in s.nodes && !s.nodes[n].stopped && TaskOf(s.nodes[n], side).Busy? && TaskOf(s.nodes[n], side).e == e
    requires TaskOf(s.nodes[n], side).stage == FirstStage(s.nodes[n].cfg)
    ensures var s2 := Next(Next(s, JsonLog(n, side, io.json)), Insert(n, side, io.insert));
            var s3 := Next(s2, Post(n, side, token, io.script));
            n in s3.nodes && IsLogged(s.nodes[n], s3.nodes[n], side, token, e, io)
  {
    var s2 := Next(Next(s, JsonLog(n, side, io.json)), Insert(n, side, io.insert));
    StoreStages(s, n, side, io.json, io.insert);
    PostStage(s2, n, side, token, io.script);
    LoggedNode(s.nodes[n], side, token, io);
  }

  /** The stages of one local event, uninterrupted, have the effect of `sip_log_event`. */
  lemma SipLogIsItsStages(s: Cluster, n: string, token: Option<string>, e: BadActor, io: LogIo, valueMade: bool)
    requires Enabled(s, LocalEvent(n, e))
    ensures var s1 := Next(s, LocalEvent(n, e));
            var s3 := Next(Next(s1, JsonLog(n, Local, io.json)), Insert(n, Local, io.insert));
            var s5 := Next(Next(s3, Post(n, Local, token, io.script)), Publish(n, valueMade));
            var (st, r) := LocallyLogged(s.nodes[n].cfg, s.nodes[n].store, token, e, io, valueMade);
            n in s5.nodes && EndsAs(s5.nodes[n], Local, r.outcome) && s5.nodes[n].store == st
  {
    var s1 := Next(s, LocalEvent(n, e));
    LogStages(s1, n, Local, token, e, io);
  }

  // ----- sinks that are switched off -----

  predicate IsAt(t: Task, stage: Stage) {
    t.Busy? && t.stage == stage
  }

  /** Neither the sink nor the way to it has been used. */
  predicate OffIsUnused(node: NodeState) {
    && (!node.cfg.jsonLogMode ==>
          node.store.jsonLog == [] && !IsAt(node.local, ToJsonLog) && !IsAt(node.incoming, ToJsonLog))
    && (!node.cfg.webhookMode ==> node.store.posts == [] && !IsAt(node.local, ToPost) && !IsAt(node.incoming, ToPost))
    && (!node.cfg.dhtMode ==> node.store.puts == [] && !IsAt(node.local, ToPublish))
  }

  lemma OffNode(s: Cluster, step: Step)
    requires Enabled(s, step) && !step.Forge? && OffIsUnused(s.nodes[step.n])
    ensures OffIsUnused(NodeNext(s, step))
  {
  }

  /** In any run of any node: a switched-off log, WebHook or DHT stays empty, and nothing received is ever published. */
  lemma {:induction false} SwitchedOffStaysEmpty(s: Cluster, steps: seq<Step>, n: string)
    requires Init(s) && n in s.nodes
    ensures n in Run(s, steps).nodes && OffIsUnused(Run(s, steps).nodes[n])
    ensures !IsAt(Run(s, steps).nodes[n].incoming, ToPublish)
  {
    if steps != [] {
      var before, step := Run(s, steps[..|steps| - 1]), steps[|steps| - 1];
      SwitchedOffStaysEmpty(s, steps[..|steps| - 1], n);
      if Enabled(before, step) && !step.Forge? && step.n == n {
        OffNode(before, step);
      }
    }
  }
}
