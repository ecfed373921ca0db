/** Safety of every run: no duplicate events, no echo of a node's own events, no storm of re-deliveries. */
module ReplicationSafety {
  import opened Text
  import opened Sequences
  import opened Events
  import opened Node
  import opened Replication

  // ----- at most one row per event_uuid -----

  predicate UniqueTable(table: seq<Row>) {
    forall i, j :: 0 <= i < j < |table| ==> table[i].eventUuid != table[j].eventUuid
  }

  predicate Unique(s: Cluster) {
    forall n :: n in s.nodes ==> UniqueTable(s.nodes[n].store.table)
  }

  /** The step stores a received event whose existence check answered wrongly. */
  predicate StoresMisjudged(s: Cluster, step: Step) {
    step.Insert? && step.side.Incoming? && !step.insert.NotInserted? && Enabled(s, step) && !s.nodes[step.n].incoming.sound
  }

  lemma UniqueAppend(table: seq<Row>, r: Row)
    requires UniqueTable(table) && r.eventUuid.Some?
    ensures UniqueTable(table + [r]) <==> r.eventUuid.value !in TableUuids(table)
  {
    if r.eventUuid.value in TableUuids(table) {
      var x :| x in table && x.eventUuid == r.eventUuid;
      var i :| 0 <= i < |table| && table[i] == x;
      assert (table + [r])[i].eventUuid == (table + [r])[|table|].eventUuid;
    } else {
      assert forall i :: 0 <= i < |table| ==> table[i] in table;
    }
  }

  lemma TablesGrow(s: Cluster, step: Step, n: string)
    requires n in s.nodes
    ensures n in Next(s, step).nodes && s.nodes[n].store.table <= Next(s, step).nodes[n].store.table
    ensures (step.Insert? && step.n == n) || Next(s, step).nodes[n].store.table == s.nodes[n].store.table
  {
    GrowingHistory(s, step);
  }

  /** A step keeps the tables free of duplicates unless it stores a misjudged event, and then it does not. */
  lemma UniqueStep(s: Cluster, step: Step)
    requires Inv(s) && Unique(s)
    ensures Unique(Next(s, step)) <==> !StoresMisjudged(s, step)
  {
    var s' := Next(s, step);
    GrowingHistory(s, step);
    forall n | n in s.nodes
      ensures UniqueTable(s'.nodes[n].store.table) <==> !(StoresMisjudged(s, step) && n == step.n)
    {
      TablesGrow(s, step, n);
      if step.Insert? && step.n == n && Enabled(s, step) {
        assert NodeInv(s, n);
        UniqueAppend(s.nodes[n].store.table, RowOf(TaskOf(s.nodes[n], step.side).e));
      }
    }
  }

  lemma DuplicateStays(s: Cluster, step: Step)
    requires !Unique(s)
    ensures !Unique(Next(s, step))
  {
    var n :| n in s.nodes && !UniqueTable(s.nodes[n].store.table);
    TablesGrow(s, step, n);
    var t, t' := s.nodes[n].store.table, Next(s, step).nodes[n].store.table;
    var i, j :| 0 <= i < j < |t| && t[i].eventUuid == t[j].eventUuid;
    assert t'[i].eventUuid == t'[j].eventUuid;
  }

  /**
   * Exactly when a run ends without duplicates, whatever was forged, repeated, reordered or failed: when no
   * event is stored whose existence check met a database error although the event was there.
   */
  lemma {:induction false} UniqueExactly(s: Cluster, steps: seq<Step>)
    requires Init(s)
    ensures Unique(Run(s, steps)) <==> Never(StoresMisjudged, s, steps)
  {
    if steps == [] {
    } else {
      var last := |steps| - 1;
      var before := Run(s, steps[..last]);
      UniqueExactly(s, steps[..last]);
      InvRun(s, steps[..last]);
      if Unique(before) {
        UniqueStep(before, steps[last]);
      } else {
        DuplicateStays(before, steps[last]);
      }
    }
  }

  /** The existence check failed with a database error although the event was stored. */
  predicate WrongAnswer(s: Cluster, step: Step) {
    step.Deliver? && step.dbError && step.n in s.nodes && UuidOf(step.p).Some? &&
    UuidOf(step.p).value in TableUuids(s.nodes[step.n].store.table)
  }

  /** The same, for a value that passes all other filters of the callback. */
  predicate Misjudges(s: Cluster, step: Step) {
    WrongAnswer(s, step) && Enabled(s, step) &&
    Accepted(step.n, s.nodes[step.n].store.table, step.p, step.expired, true).Some?
  }

  predicate IsMisjudged(t: Task) {
    t.Busy? && !t.sound
  }

  /** A node takes up a misjudged event exactly when its database fails on a value it has stored. */
  lemma MisjudgedExactly(s: Cluster, step: Step, n: string)
    requires n in s.nodes
    ensures n in Next(s, step).nodes
    ensures !IsMisjudged(s.nodes[n].incoming) && IsMisjudged(Next(s, step).nodes[n].incoming) <==>
            Misjudges(s, step) && step.n == n
  {
    GrowingHistory(s, step);
  }

  predicate SoundTasks(s: Cluster) {
    forall n :: n in s.nodes && s.nodes[n].incoming.Busy? ==> s.nodes[n].incoming.sound
  }

  lemma SoundStep(s: Cluster, step: Step)
    requires SoundTasks(s) && !WrongAnswer(s, step)
    ensures SoundTasks(Next(s, step))
  {
    GrowingHistory(s, step);
  }

  lemma {:induction false} SoundRun(s: Cluster, steps: seq<Step>)
    requires Init(s) && Never(WrongAnswer, s, steps)
    ensures SoundTasks(Run(s, steps)) && Never(StoresMisjudged, s, steps)
  {
    if steps == [] {
    } else {
      var last := |steps| - 1;
      SoundRun(s, steps[..last]);
      SoundStep(Run(s, steps[..last]), steps[last]);
    }
  }

  /**
   * No node ever holds two rows with one event_uuid, unless a database error made the existence check
   * answer wrongly. An error while the table holds no such row (or does not exist yet) does no harm.
   */
  lemma NoDuplicates(s: Cluster, steps: seq<Step>)
    requires Init(s) && Never(WrongAnswer, s, steps)
    ensures Unique(Run(s, steps))
  {
    SoundRun(s, steps);
    UniqueExactly(s, steps);
  }

  // ----- no echo -----

  /**
   * The event the listener is about to store never carries the receiver's own node id; so a row that
   * does carry it is the row of an event generated locally.
   */
  lemma NoEcho(s: Cluster, steps: seq<Step>, n: string)
    requires Init(s) && n in s.nodes
    ensures n in Run(s, steps).nodes
    ensures Run(s, steps).nodes[n].incoming.Busy? ==> Run(s, steps).nodes[n].incoming.e.createdByNodeId != Some(n)
    ensures forall r :: r in Run(s, steps).nodes[n].store.table && r.createdByNodeId == Some(n) ==>
              exists e :: e in Run(s, steps).events && r == RowOf(e)
  {
    InvRun(s, steps);
    assert NodeInv(Run(s, steps), n);
  }

  /** The columns the reports read are never NULL in a table that a run can reach. */
  lemma ReportedColumnsAreSet(s: Cluster, steps: seq<Step>, n: string)
    requires Init(s) && n in s.nodes
    ensures n in Run(s, steps).nodes
    ensures forall r :: r in Run(s, steps).nodes[n].store.table ==>
              r.sourceIp.Some? && r.eventTimestamp.Some? && r.eventUuid.Some?
  {
    InvRun(s, steps);
    assert NodeInv(Run(s, steps), n);
  }

  // ----- no storm -----

  /** The (node, event) pairs that the DHT could still bring. */
  function Missing(s: Cluster): set<(string, string)> {
    set n, u | n in s.nodes && u in DhtUuids(s.dht) && u !in TableUuids(s.nodes[n].store.table) :: (n, u)
  }

  predicate AddsValue(s: Cluster, step: Step) {
    Next(s, step).dht != s.dht
  }

  /** A delivery that had an effect: its row was stored. */
  predicate Effective(s: Cluster, step: Step) {
    step.Insert? && step.side.Incoming? && Enabled(s, step) && !step.insert.NotInserted? && s.nodes[step.n].incoming.sound
  }

  function EffectiveCount(s: Cluster, steps: seq<Step>): nat {
    if steps == [] then 0
    else EffectiveCount(s, steps[..|steps| - 1]) +
         if Effective(Run(s, steps[..|steps| - 1]), steps[|steps| - 1]) then 1 else 0
  }

  lemma TableUuidsGrow(t: seq<Row>, t': seq<Row>)
    requires t <= t'
    ensures TableUuids(t) <= TableUuids(t')
  {
    assert forall r :: r in t ==> r in t';
  }

  lemma MissingStep(s: Cluster, step: Step)
    requires Inv(s) && !AddsValue(s, step)
    ensures |Missing(Next(s, step))| + (if Effective(s, step) then 1 else 0) <= |Missing(s)|
  {
    var s' := Next(s, step);
    GrowingHistory(s, step);
    forall n | n in s.nodes
      ensures TableUuids(s.nodes[n].store.table) <= TableUuids(s'.nodes[n].store.table)
    {
      TablesGrow(s, step, n);
      TableUuidsGrow(s.nodes[n].store.table, s'.nodes[n].store.table);
    }
    assert Missing(s') <= Missing(s);
    SubsetSize(Missing(s'), Missing(s));
    if Effective(s, step) {
      var node := s.nodes[step.n];
      assert NodeInv(s, step.n);
      TableUuidsAppend(node.store.table, RowOf(node.incoming.e));
      var gone := (step.n, node.incoming.e.eventUuid.value);
      assert gone in Missing(s) && gone !in Missing(s');
    }
  }

  /** Until a new value appears, deliveries have at most as many effects as pairs were missing. */
  lemma {:induction false} NoStorm(s: Cluster, steps: seq<Step>)
    requires Inv(s) && Never(AddsValue, s, steps)
    ensures Inv(Run(s, steps))
    ensures EffectiveCount(s, steps) + |Missing(Run(s, steps))| <= |Missing(s)|
  {
    if steps == [] {
    } else {
      var last := |steps| - 1;
      NoStorm(s, steps[..last]);
      InvStep(Run(s, steps[..last]), steps[last]);
      MissingStep(Run(s, steps[..last]), steps[last]);
    }
  }

  /** The (node, event) pairs that are on the DHT and in the node's table. */
  function Brought(s: Cluster): set<(string, string)> {
    set n, u | n in s.nodes && u in DhtUuids(s.dht) && u in TableUuids(s.nodes[n].store.table) :: (n, u)
  }

  lemma BroughtStep(s: Cluster, step: Step)
    requires Inv(s)
    ensures |Brought(s)| + (if Effective(s, step) then 1 else 0) <= |Brought(Next(s, step))|
  {
    var s' := Next(s, step);
    GrowingHistory(s, step);
    forall n | n in s.nodes
      ensures TableUuids(s.nodes[n].store.table) <= TableUuids(s'.nodes[n].store.table)
    {
      TablesGrow(s, step, n);
      TableUuidsGrow(s.nodes[n].store.table, s'.nodes[n].store.table);
    }
    assert Brought(s) <= Brought(s');
    SubsetSize(Brought(s), Brought(s'));
    if Effective(s, step) {
      var node := s.nodes[step.n];
      assert NodeInv(s, step.n);
      TableUuidsAppend(node.store.table, RowOf(node.incoming.e));
      var pair := (step.n, node.incoming.e.eventUuid.value);
      assert pair in Brought(s') && pair !in Brought(s);
    }
  }

  /** Over any whole run, deliveries have at most one effect for each value and node that holds it. */
  lemma {:induction false} EffectsAreBounded(s: Cluster, steps: seq<Step>)
    requires Init(s)
    ensures EffectiveCount(s, steps) <= |Brought(Run(s, steps))|
  {
    if steps == [] {
    } else {
      var last := |steps| - 1;
      EffectsAreBounded(s, steps[..last]);
      InvRun(s, steps[..last]);
      BroughtStep(Run(s, steps[..last]), steps[last]);
    }
  }

  function Forgeries(s: Cluster, steps: seq<Step>): nat {
    if steps == [] then 0
    else Forgeries(s, steps[..|steps| - 1]) +
         if steps[|steps| - 1].Forge? && AddsValue(Run(s, steps[..|steps| - 1]), steps[|steps| - 1]) then 1 else 0
  }

  function BusyNodes(s: Cluster): set<string> {
    set n | n in s.nodes && s.nodes[n].local.Busy?
  }

  lemma TrafficStep(s: Cluster, step: Step)
    ensures var s' := Next(s, step);
            |s'.dht| + |BusyNodes(s')| + |s.events| <=
            |s.dht| + |BusyNodes(s)| + |s'.events| + if step.Forge? && AddsValue(s, step) then 1 else 0
  {
    GrowingHistory(s, step);
    DeliveryNeverPublishes(s, step);
    var s' := Next(s, step);
    if Enabled(s, step) && !step.Forge? {
      assert BusyNodes(s') == if s'.nodes[step.n].local.Busy? then BusyNodes(s) + {step.n} else BusyNodes(s) - {step.n};
    }
  }

  /** Over any whole run: all nodes together publish each local event at most once, and deliveries nothing. */
  lemma {:induction false} TrafficIsBounded(s: Cluster, steps: seq<Step>)
    requires Init(s)
    ensures |Run(s, steps).dht| + |BusyNodes(Run(s, steps))| <= |Run(s, steps).events| + Forgeries(s, steps)
  {
    if steps == [] {
      assert BusyNodes(s) == {};
    } else {
      TrafficIsBounded(s, steps[..|steps| - 1]);
      TrafficStep(Run(s, steps[..|steps| - 1]), steps[|steps| - 1]);
    }
  }

  /** Only a local publication or a forger adds a value: nothing that a delivery triggers does. */
  lemma DeliveryNeverPublishes(s: Cluster, step: Step)
    ensures AddsValue(s, step) ==> step.Forge? || step.Publish?
    ensures !step.Publish? ==> forall n :: n in s.nodes ==> Next(s, step).nodes[n].store.puts == s.nodes[n].store.puts
  {
    GrowingHistory(s, step);
  }

  // ----- a database error does produce a duplicate -----

  lemma {:induction false} InvFrom(s: Cluster, steps: seq<Step>)
    requires Inv(s)
    ensures Inv(Run(s, steps))
  {
    if steps != [] {
      InvFrom(s, steps[..|steps| - 1]);
      InvStep(Run(s, steps[..|steps| - 1]), steps[|steps| - 1]);
    }
  }

  lemma {:induction false} StoredStays(s: Cluster, steps: seq<Step>, n: string)
    requires n in s.nodes
    ensures n in Run(s, steps).nodes
    ensures TableUuids(s.nodes[n].store.table) <= TableUuids(Run(s, steps).nodes[n].store.table)
  {
    if steps != [] {
      var before := Run(s, steps[..|steps| - 1]);
      StoredStays(s, steps[..|steps| - 1], n);
      TablesGrow(before, steps[|steps| - 1], n);
      TableUuidsGrow(before.nodes[n].store.table, Run(s, steps).nodes[n].store.table);
    }
  }

  /**
   * From any state, in any configuration: a misjudged value is taken up as such, and whatever happens in between,
   * when its event is inserted the table holds it twice.
   */
  lemma WrongAnswerDuplicates(s: Cluster, n: string, p: Payload, more: seq<Step>, io: InsertIo)
    requires Inv(s) && Misjudges(s, Deliver(n, p, false, true)) && !io.NotInserted?
    ensures var s1 := Next(s, Deliver(n, p, false, true));
            var s2 := Run(s1, more);
            && n in s1.nodes && IsMisjudged(s1.nodes[n].incoming)
            && n in s2.nodes
            && (AtStage(s2, n, Incoming, ToInsert) && s2.nodes[n].incoming.e.eventUuid == UuidOf(p) ==>
                  !Unique(Next(s2, Insert(n, Incoming, io))))
  {
    var s1 := Next(s, Deliver(n, p, false, true));
    InvStep(s, Deliver(n, p, false, true));
    InvFrom(s1, more);
    StoredStays(s1, more, n);
    StoredTwice(Run(s1, more), n, UuidOf(p), io);
  }

  lemma StoredTwice(s: Cluster, n: string, uuid: Option<string>, io: InsertIo)
    requires Inv(s) && n in s.nodes && uuid.Some? && uuid.value in TableUuids(s.nodes[n].store.table) && !io.NotInserted?
    ensures AtStage(s, n, Incoming, ToInsert) && s.nodes[n].incoming.e.eventUuid == uuid ==>
              !Unique(Next(s, Insert(n, Incoming, io)))
  {
    assert NodeInv(s, n);
    if AtStage(s, n, Incoming, ToInsert) && s.nodes[n].incoming.e.eventUuid == uuid {
      if Unique(s) {
        UniqueStep(s, Insert(n, Incoming, io));
      } else {
        DuplicateStays(s, Insert(n, Incoming, io));
      }
    }
  }

  function Fresh(id: string): NodeState {
    NodeState(Config(id, false, false, false, true), Store([], [], [], []), Idle, Idle, {}, false)
  }

  function Pair(a: string, b: string): Cluster {
    Cluster(map[a := Fresh(a), b := Fresh(b)], [], [])
  }

  /** Node a logs and publishes e; b receives the value twice, and the second check fails. */
  function TwiceDelivered(a: string, b: string, e: BadActor, p: Payload): seq<Step> {
    [LocalEvent(a, e), Insert(a, Local, Inserted), Publish(a, true),
     Deliver(b, p, false, false), Insert(b, Incoming, Inserted),
     Deliver(b, p, false, true), Insert(b, Incoming, Inserted)]
  }

  lemma PublishedByA(a: string, b: string, e: BadActor) returns (s3: Cluster)
    requires IsUuid(a) && IsUuid(b) && a != b && ToJson(e).Some? && IsLocalEvent(Pair(a, b), a, e)
    ensures var steps := TwiceDelivered(a, b, e, Object(ToJson(e).value));
            s3 == Next(Next(Next(Pair(a, b), steps[0]), steps[1]), steps[2])
    ensures s3.nodes.Keys == {a, b} && s3.nodes[b] == Fresh(b) && s3.dht == [Object(ToJson(e).value)]
  {
    var steps := TwiceDelivered(a, b, e, Object(ToJson(e).value));
    var s1 := Next(Pair(a, b), steps[0]);
    assert s1.nodes[a].local == Busy(e, ToInsert, true);
    var s2 := Next(s1, steps[1]);
    assert s2.nodes[a].local == Busy(e, ToPublish, true);
    s3 := Next(s2, steps[2]);
  }

  lemma StoredByB(s3: Cluster, b: string, e: BadActor) returns (s5: Cluster)
    requires b in s3.nodes && s3.nodes[b] == Fresh(b) && IsUuid(b) && ToJson(e).Some?
    requires e.eventUuid.Some? && IsUuid(e.eventUuid.value)
    requires e.createdByNodeId.Some? && IsUuid(e.createdByNodeId.value) && e.createdByNodeId.value != b
    requires s3.dht == [Object(ToJson(e).value)]
    ensures var p := Object(ToJson(e).value);
            s5 == Next(Next(s3, Deliver(b, p, false, false)), Insert(b, Incoming, Inserted)) &&
            s5.dht == s3.dht && b in s5.nodes && s5.nodes[b].cfg == Fresh(b).cfg &&
            Enabled(s5, Deliver(b, p, false, true)) && s5.nodes[b].store.table == [RowOf(Normal(e))] &&
            Accepted(b, s5.nodes[b].store.table, p, false, true).Some?
  {
    var p := Object(ToJson(e).value);
    PublishedUuid(e);
    OriginFilterIsEquality(e.createdByNodeId.value, b);
    var s4 := Next(s3, Deliver(b, p, false, false));
    assert s4.nodes[b].incoming == Busy(Normal(e), ToInsert, true);
    s5 := Next(s4, Insert(b, Incoming, Inserted));
  }

  lemma RunOfFive(s: Cluster, a: Step, b: Step, c: Step, d: Step, e: Step)
    requires Init(s)
    ensures Run(s, [a, b, c, d, e]) == Next(Next(Next(Next(Next(s, a), b), c), d), e)
    ensures Inv(Run(s, [a, b, c, d, e]))
  {
    RunAppend(s, [], a);
    RunAppend(s, [a], b);
    RunAppend(s, [a, b], c);
    RunAppend(s, [a, b, c], d);
    RunAppend(s, [a, b, c, d], e);
    assert [] + [a] == [a] && [a] + [b] == [a, b] && [a, b] + [c] == [a, b, c];
    assert [a, b, c] + [d] == [a, b, c, d] && [a, b, c, d] + [e] == [a, b, c, d, e];
    InvRun(s, [a, b, c, d, e]);
  }

  lemma RunOfSeven(s: Cluster, steps: seq<Step>)
    requires |steps| == 7
    ensures Run(s, steps) == Next(Next(Run(s, [steps[0], steps[1], steps[2], steps[3], steps[4]]), steps[5]), steps[6])
  {
    RunAppend(s, steps[..5], steps[5]);
    RunAppend(s, steps[..6], steps[6]);
    assert steps[..5] == [steps[0], steps[1], steps[2], steps[3], steps[4]];
    assert steps[..6] == steps[..5] + [steps[5]] && steps == steps[..6] + [steps[6]];
  }

  lemma FirstFive(a: string, b: string, e: BadActor) returns (s5: Cluster)
    requires IsUuid(a) && IsUuid(b) && a != b && ToJson(e).Some? && IsLocalEvent(Pair(a, b), a, e)
    requires Init(Pair(a, b))
    ensures var p := Object(ToJson(e).value);
            var steps := TwiceDelivered(a, b, e, p);
            && s5 == Run(Pair(a, b), [steps[0], steps[1], steps[2], steps[3], steps[4]])
            && Inv(s5) && Enabled(s5, Deliver(b, p, false, true)) && !s5.nodes[b].cfg.jsonLogMode
            && s5.nodes[b].store.table == [RowOf(Normal(e))]
            && Accepted(b, s5.nodes[b].store.table, p, false, true).Some?
  {
    var p := Object(ToJson(e).value);
    var steps := TwiceDelivered(a, b, e, p);
    var s3 := PublishedByA(a, b, e);
    s5 := StoredByB(s3, b, e);
    RunOfFive(Pair(a, b), steps[0], steps[1], steps[2], steps[3], steps[4]);
  }

  lemma WrongAnswerRun(a: string, b: string, e: BadActor)
    requires IsUuid(a) && IsUuid(b) && a != b && ToJson(e).Some? && IsLocalEvent(Pair(a, b), a, e)
    requires Init(Pair(a, b))
    ensures !Unique(Run(Pair(a, b), TwiceDelivered(a, b, e, Object(ToJson(e).value))))
  {
    var p := Object(ToJson(e).value);
    var s5 := FirstFive(a, b, e);
    RunOfSeven(Pair(a, b), TwiceDelivered(a, b, e, p));
    TwoMore(s5, b, p, e);
  }

  lemma TwoMore(s: Cluster, b: string, p: Payload, e: BadActor)
    requires Inv(s) && Enabled(s, Deliver(b, p, false, true)) && !s.nodes[b].cfg.jsonLogMode
    requires Accepted(b, s.nodes[b].store.table, p, false, true).Some?
    requires ToJson(e).Some? && p == Object(ToJson(e).value) && e.eventUuid.Some?
    requires s.nodes[b].store.table == [RowOf(Normal(e))]
    ensures !Unique(Next(Next(s, Deliver(b, p, false, true)), Insert(b, Incoming, Inserted)))
  {
    PublishedUuid(e);
    assert RowOf(Normal(e)) in s.nodes[b].store.table;
    WrongAnswerDuplicates(s, b, p, [], Inserted);
  }

  function UuidOfDigit(c: char): string {
    seq(36, i => if i == 8 || i == 13 || i == 18 || i == 23 then '-' else c)
  }

  lemma UuidOfDigitIsUuid(c: char)
    requires IsDigit(c) || 'a' <= c <= 'f'
    ensures IsLowerUuid(UuidOfDigit(c)) && IsUtf8(UuidOfDigit(c)) && UuidOfDigit(c)[0] == c
  {
    AsciiIsUtf8(UuidOfDigit(c));
  }

  function BareEvent(n: string, u: string): BadActor {
    BadActor(Some(""), Some(u), Some(n), Some(""), Some(""), Some(""), Some(""), None, None, None, None)
  }

  lemma BareEventIsPublishable(n: string, u: string)
    requires IsUtf8(n) && IsUtf8(u)
    ensures ToJson(BareEvent(n, u)).Some?
  {
    AllAscii([APP_NAME, APP_VERSION, ""]);
    var ts := Texts(BareEvent(n, u));
    assert forall i :: 0 <= i < |ts| ==> ts[i] in [APP_NAME, APP_VERSION, ""] || ts[i] == u || ts[i] == n;
  }

  lemma AllAscii(ts: seq<string>)
    requires forall t, i :: t in ts && 0 <= i < |t| ==> t[i] as int < 0x80
    ensures forall t :: t in ts ==> IsUtf8(t)
  {
    forall t | t in ts
      ensures IsUtf8(t)
    {
      AsciiIsUtf8(t);
    }
  }

  /** A concrete run: the probe of one node ends up twice in the table of another. */
  lemma DatabaseErrorCounterexample()
    ensures exists a, b, e :: IsUuid(a) && IsUuid(b) && a != b && ToJson(e).Some? && Init(Pair(a, b)) &&
              !Unique(Run(Pair(a, b), TwiceDelivered(a, b, e, Object(ToJson(e).value))))
  {
    var a, b, u := UuidOfDigit('a'), UuidOfDigit('b'), UuidOfDigit('c');
    UuidOfDigitIsUuid('a');
    UuidOfDigitIsUuid('b');
    UuidOfDigitIsUuid('c');
    BareEventIsPublishable(a, u);
    BareRun(a, b, u);
  }

  lemma BareRun(a: string, b: string, u: string)
    requires IsLowerUuid(a) && IsLowerUuid(b) && IsLowerUuid(u) && a != b && ToJson(BareEvent(a, u)).Some?
    ensures Init(Pair(a, b))
    ensures var e := BareEvent(a, u);
            !Unique(Run(Pair(a, b), TwiceDelivered(a, b, e, Object(ToJson(e).value))))
  {
    assert IsLocalEvent(Pair(a, b), a, BareEvent(a, u));
    WrongAnswerRun(a, b, BareEvent(a, u));
  }
}
