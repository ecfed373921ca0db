/**
 * UUIDs as values. The program prints UUIDs in lower case, accepts either case from the DHT and compares texts, so
 * a forged value can carry the receiver's own id, or a stored event_uuid, in another case.
 */
module UuidCase {
  import opened Text
  import opened Sequences
  import opened Events
  import opened Node
  import opened Replication
  import opened ReplicationSafety

  // ----- where the origins in a table come from -----

  function DhtOrigins(dht: seq<Payload>): set<string> {
    set p | p in dht && NodeIdOf(p).Some? :: NodeIdOf(p).value
  }

  lemma DhtOriginsAppend(dht: seq<Payload>, p: Payload)
    ensures DhtOrigins(dht + [p]) == DhtOrigins(dht) + if NodeIdOf(p).Some? then {NodeIdOf(p).value} else {}
  {
    assert forall x :: x in dht + [p] <==> x in dht || x == p;
    if NodeIdOf(p).Some? {
      assert p in dht + [p];
    }
  }

  predicate HasOrigin(dht: seq<Payload>, n: string, origin: Option<string>) {
    origin.Some? && IsUuid(origin.value) && (origin.value == n || origin.value in DhtOrigins(dht))
  }

  /** Whatever a node works on or holds is its own or came over the DHT. */
  predicate NodeOrigins(s: Cluster, n: string)
    requires n in s.nodes
  {
    && (s.nodes[n].incoming.Busy? ==> HasOrigin(s.dht, n, s.nodes[n].incoming.e.createdByNodeId))
    && forall r :: r in s.nodes[n].store.table ==> HasOrigin(s.dht, n, r.createdByNodeId)
  }

  lemma OriginsGrow(s: Cluster, step: Step, n: string, origin: Option<string>)
    requires HasOrigin(s.dht, n, origin)
    ensures HasOrigin(Next(s, step).dht, n, origin)
  {
    GrowingHistory(s, step);
    assert forall p :: p in s.dht ==> p in Next(s, step).dht;
  }

  /** The listener's event after a step: what it had, or an accepted value of the DHT. */
  lemma IncomingOrigin(s: Cluster, step: Step, n: string)
    requires n in s.nodes && NodeOrigins(s, n) && Enabled(s, step) && !step.Forge? && step.n == n
    ensures NodeNext(s, step).incoming.Busy? ==> HasOrigin(s.dht, n, NodeNext(s, step).incoming.e.createdByNodeId)
  {
    if step.Deliver? && NodeNext(s, step).incoming.Busy? {
      assert NodeNext(s, step).incoming.e.createdByNodeId == NodeIdOf(step.p);
    }
  }

  lemma RowOrigin(s: Cluster, step: Step, n: string, r: Row)
    requires Inv(s) && n in s.nodes && NodeOrigins(s, n) && Enabled(s, step) && !step.Forge? && step.n == n
    requires r in NodeNext(s, step).store.table
    ensures HasOrigin(s.dht, n, r.createdByNodeId)
  {
    if r !in s.nodes[n].store.table {
      assert step.Insert? && r == RowOf(TaskOf(s.nodes[n], step.side).e);
      assert NodeInv(s, n);
    }
  }

  lemma OriginsStep(s: Cluster, step: Step, n: string)
    requires Inv(s) && n in s.nodes && NodeOrigins(s, n)
    ensures n in Next(s, step).nodes && NodeOrigins(Next(s, step), n)
  {
    GrowingHistory(s, step);
    var node' := Next(s, step).nodes[n];
    var acts := Enabled(s, step) && !step.Forge? && step.n == n;
    if acts {
      IncomingOrigin(s, step, n);
    }
    if node'.incoming.Busy? {
      OriginsGrow(s, step, n, node'.incoming.e.createdByNodeId);
    }
    forall r | r in node'.store.table
      ensures HasOrigin(Next(s, step).dht, n, r.createdByNodeId)
    {
      if acts {
        RowOrigin(s, step, n, r);
      }
      OriginsGrow(s, step, n, r.createdByNodeId);
    }
  }

  lemma {:induction false} OriginsRun(s: Cluster, steps: seq<Step>, n: string)
    requires Init(s) && n in s.nodes
    ensures n in Run(s, steps).nodes && NodeOrigins(Run(s, steps), n)
  {
    if steps != [] {
      var last := |steps| - 1;
      OriginsRun(s, steps[..last], n);
      InvRun(s, steps[..last]);
      OriginsStep(Run(s, steps[..last]), steps[last], n);
    }
  }

  /** In every run, every row has a UUID as its origin, and a foreign one came over the DHT. */
  lemma OriginsAreUuids(s: Cluster, steps: seq<Step>, n: string)
    requires Init(s) && n in s.nodes
    ensures n in Run(s, steps).nodes
    ensures forall r :: r in Run(s, steps).nodes[n].store.table ==>
              && r.createdByNodeId.Some? && IsUuid(r.createdByNodeId.value)
              && (r.createdByNodeId != Some(n) ==> exists p :: p in Run(s, steps).dht && NodeIdOf(p) == r.createdByNodeId)
  {
    OriginsRun(s, steps, n);
    forall r | r in Run(s, steps).nodes[n].store.table
      ensures HasOrigin(Run(s, steps).dht, n, r.createdByNodeId)
    {
    }
  }

  // ----- no echo, by value -----

  /** A forged value with the id of node n in another case. */
  function ForgesOwnId(n: string): (Cluster, Step) -> bool {
    (s: Cluster, step: Step) => step.Forge? && NodeIdOf(step.p).Some? && Recased(NodeIdOf(step.p).value, n)
  }

  predicate NoRecasedOrigin(s: Cluster, n: string) {
    forall o :: o in DhtOrigins(s.dht) ==> !Recased(o, n)
  }

  lemma RecasedStep(s: Cluster, step: Step, n: string)
    requires Inv(s) && IsLowerUuid(n) && NoRecasedOrigin(s, n) && !ForgesOwnId(n)(s, step)
    requires forall m :: m in s.nodes ==> IsLowerUuid(m)
    ensures NoRecasedOrigin(Next(s, step), n)
  {
    if AddsValue(s, step) {
      DeliveryNeverPublishes(s, step);
      if step.Forge? {
        DhtOriginsAppend(s.dht, step.p);
      } else {
        var e := s.nodes[step.n].local.e;
        assert NodeInv(s, step.n);
        PublishedUuid(e);
        DhtOriginsAppend(s.dht, Object(ToJson(e).value));
        LowerTextIsUnique(step.n, n);
      }
    }
  }

  lemma {:induction false} RecasedRun(s: Cluster, steps: seq<Step>, n: string)
    requires Init(s) && n in s.nodes && Never(ForgesOwnId(n), s, steps)
    ensures NoRecasedOrigin(Run(s, steps), n)
  {
    if steps != [] {
      var last := |steps| - 1;
      RecasedRun(s, steps[..last], n);
      InvRun(s, steps[..last]);
      RecasedStep(Run(s, steps[..last]), steps[last], n);
    }
  }

  /**
   * Unless its id was forged in another case, every row that carries the UUID value of node n is the row of an
   * event generated on n: nothing that n published comes back to it.
   */
  lemma NoEchoByValue(s: Cluster, steps: seq<Step>, n: string)
    requires Init(s) && n in s.nodes && Never(ForgesOwnId(n), s, steps)
    ensures n in Run(s, steps).nodes
    ensures forall r :: r in Run(s, steps).nodes[n].store.table && r.createdByNodeId.Some? &&
                        SameUuid(r.createdByNodeId.value, n) ==>
              exists e :: e in Run(s, steps).events && r == RowOf(e)
  {
    OriginsRun(s, steps, n);
    RecasedRun(s, steps, n);
    NoEcho(s, steps, n);
    forall r | r in Run(s, steps).nodes[n].store.table && r.createdByNodeId.Some? && SameUuid(r.createdByNodeId.value, n)
      ensures r.createdByNodeId == Some(n)
    {
      assert HasOrigin(Run(s, steps).dht, n, r.createdByNodeId);
      assert r.createdByNodeId.value != n ==> Recased(r.createdByNodeId.value, n);
    }
  }

  /** Forge, deliver and store, on a node that logs or does not log. */
  function ForgedRun(n: string, p: Payload): seq<Step> {
    [Forge(p), Deliver(n, p, false, false), JsonLog(n, Incoming, Written), Insert(n, Incoming, Inserted)]
  }

  /** What a forger must send: an object with the thirteen strings, in texts that can be logged again. */
  predicate IsAcceptable(p: Payload) {
    p.Object? && HoldsThirteenStrings(p.o) && FromJson(p.o).Some? && AllUtf8(FromJson(p.o).value)
  }

  /** Exactly which forged values a fresh node stores: those with two UUIDs whose origin text is not its own id. */
  lemma ForgedIsStoredExactly(s: Cluster, n: string, p: Payload)
    requires Init(s) && n in s.nodes && IsAcceptable(p)
    ensures n in Run(s, ForgedRun(n, p)).nodes
    ensures var origin, uuid := p.o["created_by_node_id"].text, p.o["event_uuid"].text;
            Run(s, ForgedRun(n, p)).nodes[n].store.table ==
            if IsUuid(origin) && IsUuid(uuid) && origin != n then [RowOf(FromJson(p.o).value)] else []
  {
    var steps := ForgedRun(n, p);
    RunAppend(s, [], steps[0]);
    RunAppend(s, [steps[0]], steps[1]);
    RunAppend(s, [steps[0], steps[1]], steps[2]);
    RunAppend(s, [steps[0], steps[1], steps[2]], steps[3]);
    assert [] + [steps[0]] == [steps[0]] && [steps[0]] + [steps[1]] == [steps[0], steps[1]];
    assert [steps[0], steps[1]] + [steps[2]] == [steps[0], steps[1], steps[2]];
    assert [steps[0], steps[1], steps[2]] + [steps[3]] == steps;
    ForgedStages(s, n, p);
  }

  lemma ForgedStages(s: Cluster, n: string, p: Payload)
    requires Init(s) && n in s.nodes && IsAcceptable(p)
    ensures var s1 := Next(s, Forge(p));
            var s4 := Next(Next(Next(s1, Deliver(n, p, false, false)), JsonLog(n, Incoming, Written)), Insert(n, Incoming, Inserted));
            n in s4.nodes && s4.nodes[n].store.table == if IsWanted(n, [], p, false, false) then [RowOf(FromJson(p.o).value)] else []
  {
    var s1 := Next(s, Forge(p));
    assert s1.nodes == s.nodes && p in s1.dht;
    WantedExactly(n, [], p, false, false);
    var s2 := Next(s1, Deliver(n, p, false, false));
    assert s2.nodes[n].store == s.nodes[n].store && s2.nodes[n].cfg == s.nodes[n].cfg && !s2.nodes[n].stopped;
    if IsWanted(n, [], p, false, false) {
      assert s2.nodes[n].incoming == Busy(FromJson(p.o).value, FirstStage(s.nodes[n].cfg), true);
    }
    LoggedAndStored(s2, n);
  }

  lemma LoggedAndStored(s: Cluster, n: string)
    requires n in s.nodes && !s.nodes[n].stopped && s.nodes[n].store.table == []
    requires var t := s.nodes[n].incoming; t.Busy? ==> t.stage == FirstStage(s.nodes[n].cfg) && AllUtf8(t.e)
    ensures var s2 := Next(Next(s, JsonLog(n, Incoming, Written)), Insert(n, Incoming, Inserted));
            n in s2.nodes &&
            s2.nodes[n].store.table == if s.nodes[n].incoming.Busy? then [RowOf(s.nodes[n].incoming.e)] else []
  {
    if s.nodes[n].incoming.Busy? {
      var s1 := Next(s, JsonLog(n, Incoming, Written));
      assert s1.nodes[n].incoming.Busy? && s1.nodes[n].incoming.stage == ToInsert && s1.nodes[n].store.table == [];
    }
  }

  /** So a node stores a forged value with its own id in another case, as an event of somebody else. */
  lemma RecasedEchoIsStored(s: Cluster, n: string, p: Payload)
    requires Init(s) && n in s.nodes && IsAcceptable(p) && IsUuid(p.o["event_uuid"].text)
    requires Recased(p.o["created_by_node_id"].text, n)
    ensures n in Run(s, ForgedRun(n, p)).nodes
    ensures exists r :: r in Run(s, ForgedRun(n, p)).nodes[n].store.table && r.createdByNodeId.Some? &&
                        SameUuid(r.createdByNodeId.value, n) && r.createdByNodeId.value != n
  {
    ForgedIsStoredExactly(s, n, p);
    var r := RowOf(FromJson(p.o).value);
    EventSpelledOut(p.o);
    assert r in Run(s, ForgedRun(n, p)).nodes[n].store.table && r.createdByNodeId == Some(p.o["created_by_node_id"].text);
  }

  /** Such values exist: the id of all a's, sent as all A's. */
  lemma RecasedValueExists()
    ensures exists n, p :: IsLowerUuid(n) && IsAcceptable(p) && IsUuid(p.o["event_uuid"].text) &&
                           Recased(p.o["created_by_node_id"].text, n)
  {
    var n, upper, u := UuidOfDigit('a'), UuidOfDigit('A'), UuidOfDigit('c');
    UuidOfDigitIsUuid('a');
    UuidOfDigitIsUuid('c');
    AsciiIsUtf8(upper);
    BareEventIsPublishable(upper, u);
    var e := BareEvent(upper, u);
    var p := Object(ToJson(e).value);
    PublishedUuid(e);
    JsonRoundTrip(e);
    assert upper[0] != n[0];
    assert forall i :: 0 <= i < 36 && !IsDash(i) ==> HexValue(upper[i]) == HexValue(n[i]);
    EventSpelledOut(p.o);
    HeadSpelledOut(e);
    assert IsAcceptable(p) && IsUuid(p.o["event_uuid"].text) && Recased(p.o["created_by_node_id"].text, n);
  }

  // ----- no duplicates, by value -----

  predicate ForgesUpperCase(s: Cluster, step: Step) {
    step.Forge? && UuidOf(step.p).Some? && IsUuid(UuidOf(step.p).value) && !IsLowerUuid(UuidOf(step.p).value)
  }

  predicate AllLower(s: Cluster) {
    forall u :: u in EventUuids(s.events) + DhtUuids(s.dht) && IsUuid(u) ==> IsLowerUuid(u)
  }

  lemma AllLowerStep(s: Cluster, step: Step)
    requires Inv(s) && AllLower(s) && !ForgesUpperCase(s, step)
    ensures AllLower(Next(s, step))
  {
    GrowingHistory(s, step);
    if AddsValue(s, step) {
      DeliveryNeverPublishes(s, step);
      if step.Forge? {
        DhtUuidsAppend(s.dht, step.p);
      } else {
        var e := s.nodes[step.n].local.e;
        assert NodeInv(s, step.n);
        PublishedUuid(e);
        DhtUuidsAppend(s.dht, Object(ToJson(e).value));
      }
    } else if Enabled(s, step) && step.LocalEvent? {
      EventUuidsAppend(s.events, step.e);
    }
  }

  lemma {:induction false} AllLowerRun(s: Cluster, steps: seq<Step>)
    requires Init(s) && Never(ForgesUpperCase, s, steps)
    ensures AllLower(Run(s, steps))
  {
    if steps != [] {
      var last := |steps| - 1;
      AllLowerRun(s, steps[..last]);
      InvRun(s, steps[..last]);
      AllLowerStep(Run(s, steps[..last]), steps[last]);
    }
  }

  predicate UniqueValues(table: seq<Row>) {
    forall i, j :: 0 <= i < j < |table| && table[i].eventUuid.Some? && table[j].eventUuid.Some? ==>
      !SameUuid(table[i].eventUuid.value, table[j].eventUuid.value)
  }

  /** Without forged upper-case UUIDs and without a wrong answer, no table holds one UUID value twice. */
  lemma NoDuplicateValues(s: Cluster, steps: seq<Step>, n: string)
    requires Init(s) && n in s.nodes && Never(WrongAnswer, s, steps) && Never(ForgesUpperCase, s, steps)
    ensures n in Run(s, steps).nodes && UniqueValues(Run(s, steps).nodes[n].store.table)
  {
    var s' := Run(s, steps);
    InvRun(s, steps);
    NoDuplicates(s, steps);
    AllLowerRun(s, steps);
    assert NodeInv(s', n);
    var table := s'.nodes[n].store.table;
    forall i, j | 0 <= i < j < |table| && table[i].eventUuid.Some? && table[j].eventUuid.Some?
      ensures !SameUuid(table[i].eventUuid.value, table[j].eventUuid.value)
    {
      var u, v := table[i].eventUuid.value, table[j].eventUuid.value;
      assert table[i] in table && table[j] in table && u in TableUuids(table) && v in TableUuids(table);
      assert UniqueTable(table) && u != v;
      if IsUuid(u) && IsUuid(v) {
        LowerTextIsUnique(u, v);
      }
    }
  }
}
