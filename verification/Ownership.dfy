/**
 * Who frees what: events are structs of pointers to blocks of their own. Memory is the set of live blocks and
 * the contents of the blocks that hold pointers; a free needs a live block, so nothing is freed twice.
 */
module Ownership {
  import opened Text

  /** An address; 0 is the null pointer. */
  type Ptr = int

  /** The members of `struct bad_actor`, all of them pointers. */
  datatype Field =
    | EventTimestamp
    | EventUuid
    | CollectedMethod
    | CreatedByNodeId
    | SipMessage
    | SourceIp
    | DestinationIp
    | CalledNumber
    | Method
    | TransportType
    | UserAgent
    | SeenLast
    | SeenCount

  type Slots = map<Field, Ptr>

  predicate IsTotal(slots: Slots) {
    forall f: Field :: f in slots
  }

  /** The blocks that the members point to. */
  function Strings(slots: Slots): set<Ptr> {
    set f | f in slots && slots[f] != 0 :: slots[f]
  }

  predicate HasDistinctStrings(slots: Slots) {
    forall f, g :: f in slots && g in slots && slots[f] == slots[g] != 0 ==> f == g
  }

  /** All blocks of an event. */
  function Blocks(actors: map<Ptr, Slots>, p: Ptr): set<Ptr> {
    {p} + if p in actors then Strings(actors[p]) else {}
  }

  /** An event that may be destroyed: live, complete, and no block in two roles. */
  predicate IsOwner(live: set<Ptr>, actors: map<Ptr, Slots>, p: Ptr) {
    && p != 0 && p in actors && Blocks(actors, p) <= live
    && IsTotal(actors[p]) && HasDistinctStrings(actors[p]) && p !in Strings(actors[p])
  }

  function BlocksOfAll(actors: map<Ptr, Slots>, ps: seq<Ptr>): set<Ptr> {
    if ps == [] then {} else Blocks(actors, ps[0]) + BlocksOfAll(actors, ps[1..])
  }

  /** Events that can be destroyed one after the other. */
  predicate AreOwners(live: set<Ptr>, actors: map<Ptr, Slots>, ps: seq<Ptr>) {
    ps == [] || (IsOwner(live, actors, ps[0]) && Blocks(actors, ps[0]) !! BlocksOfAll(actors, ps[1..])
                 && AreOwners(live, actors, ps[1..]))
  }

  lemma StringsWithout(slots: Slots, f: Field)
    requires IsTotal(slots) && HasDistinctStrings(slots)
    ensures IsTotal(slots[f := 0]) && HasDistinctStrings(slots[f := 0])
    ensures Strings(slots[f := 0]) == Strings(slots) - {slots[f]}
  {
    var after := slots[f := 0];
    forall p | p in Strings(slots) - {slots[f]}
      ensures p in Strings(after)
    {
      var g :| g in slots && slots[g] == p && p != 0;
      assert after[g] == p;
    }
  }

  lemma StringsWith(slots: Slots, f: Field, p: Ptr)
    requires IsTotal(slots) && HasDistinctStrings(slots) && slots[f] == 0 && p != 0 && p !in Strings(slots)
    ensures IsTotal(slots[f := p]) && HasDistinctStrings(slots[f := p])
    ensures Strings(slots[f := p]) == Strings(slots) + {p}
  {
    var after := slots[f := p];
    assert after[f] == p;
    forall q | q in Strings(slots)
      ensures q in Strings(after)
    {
      var g :| g in slots && slots[g] == q && q != 0;
      assert after[g] == q;
    }
    forall g | g in slots
      ensures slots[g] != p
    {
      assert slots[g] != 0 ==> slots[g] in Strings(slots);
    }
  }

  lemma {:induction false} OwnersAreLive(live: set<Ptr>, actors: map<Ptr, Slots>, ps: seq<Ptr>)
    requires AreOwners(live, actors, ps)
    ensures BlocksOfAll(actors, ps) <= live
    ensures forall p :: p in ps ==> p in actors && p in BlocksOfAll(actors, ps)
  {
    if ps != [] {
      OwnersAreLive(live, actors, ps[1..]);
    }
  }

  /** Ownership only depends on the events themselves and their blocks. */
  lemma {:induction false} OwnersFrame(
    live: set<Ptr>, actors: map<Ptr, Slots>, live': set<Ptr>, actors': map<Ptr, Slots>, ps: seq<Ptr>)
    requires AreOwners(live, actors, ps) && BlocksOfAll(actors, ps) <= live'
    requires forall p :: p in ps && p in actors ==> p in actors' && actors'[p] == actors[p]
    ensures AreOwners(live', actors', ps) && BlocksOfAll(actors', ps) == BlocksOfAll(actors, ps)
  {
    if ps != [] {
      assert ps[0] in ps;
      assert forall p :: p in ps[1..] ==> p in ps;
      OwnersFrame(live, actors, live', actors', ps[1..]);
    }
  }

  lemma {:induction false} OwnersAppend(live: set<Ptr>, actors: map<Ptr, Slots>, ps: seq<Ptr>, p: Ptr)
    requires AreOwners(live, actors, ps) && IsOwner(live, actors, p)
    requires Blocks(actors, p) !! BlocksOfAll(actors, ps)
    ensures AreOwners(live, actors, ps + [p])
    ensures BlocksOfAll(actors, ps + [p]) == BlocksOfAll(actors, ps) + Blocks(actors, p)
  {
    if ps == [] {
      assert ps + [p] == [p] && [p][1..] == [];
    } else {
      OwnersAppend(live, actors, ps[1..], p);
      assert (ps + [p])[1..] == ps[1..] + [p];
    }
  }

  function WithoutOrigin(slots: Slots): Slots {
    slots[EventTimestamp := 0][EventUuid := 0][SourceIp := 0]
  }

  function WithoutPath(slots: Slots): Slots {
    slots[DestinationIp := 0][TransportType := 0][CollectedMethod := 0]
  }

  function WithoutMessage(slots: Slots): Slots {
    slots[CalledNumber := 0][Method := 0][UserAgent := 0]
  }

  function WithoutStatistics(slots: Slots): Slots {
    slots[SeenLast := 0][SeenCount := 0][CreatedByNodeId := 0]
  }

  /** What the SIP library makes of a packet; a failed conversion to text may have set the text. */
  datatype Parsing = Refused | NoText(withText: bool) | Parsed

  /** The members that the parser sets. */
  predicate IsUnparsed(slots: Slots)
    requires IsTotal(slots)
  {
    slots[SipMessage] == 0 && slots[CalledNumber] == 0 && slots[Method] == 0 && slots[UserAgent] == 0
  }

  /** The members that the constructor sets itself. */
  predicate HasNoOwn(slots: Slots)
    requires IsTotal(slots)
  {
    slots[EventTimestamp] == 0 && slots[EventUuid] == 0 && slots[CreatedByNodeId] == 0
  }

  /** ... and has set. */
  predicate HasOwn(slots: Slots)
    requires IsTotal(slots)
  {
    slots[EventTimestamp] != 0 && slots[EventUuid] != 0 && slots[CreatedByNodeId] != 0
  }

  /** An event of the address list: address, latest time and count. */
  predicate IsRowEvent(slots: Slots) {
    IsTotal(slots) && HasOwn(slots) && slots[SourceIp] != 0 && slots[SeenLast] != 0 && slots[SeenCount] != 0
  }

  predicate AreRowEvents(actors: map<Ptr, Slots>, ps: seq<Ptr>) {
    forall i :: 0 <= i < |ps| ==> ps[i] in actors && IsRowEvent(actors[ps[i]])
  }

  /** Constructor arguments before any string is passed. */
  method NoStrings() returns (slots: Slots)
    ensures IsTotal(slots) && HasDistinctStrings(slots) && Strings(slots) == {}
    ensures HasNoOwn(slots) && IsUnparsed(slots) && slots[SeenLast] == 0 && slots[SeenCount] == 0
    ensures slots[SourceIp] == 0 && slots[DestinationIp] == 0 && slots[TransportType] == 0 && slots[CollectedMethod] == 0
  {
    slots := map[
      EventTimestamp := 0, EventUuid := 0, CollectedMethod := 0, CreatedByNodeId := 0, SipMessage := 0, SourceIp := 0,
      DestinationIp := 0, CalledNumber := 0, Method := 0, TransportType := 0, UserAgent := 0, SeenLast := 0, SeenCount := 0];
    forall f: Field
      ensures f in slots
    {
      match f {
        case SourceIp =>
        case _ =>
      }
    }
  }

  class Memory {
    var live: set<Ptr>
    var actors: map<Ptr, Slots>
    var next: Ptr

    ghost predicate Valid()
      reads this
    {
      next > 0 && forall p :: p in live || p in actors ==> 0 < p < next
    }

    constructor ()
      ensures Valid() && live == {} && actors == map[]
    {
      live, actors, next := {}, map[], 1;
    }

    method Malloc() returns (p: Ptr)
      requires Valid()
      modifies `live, `next
      ensures Valid() && p == old(next) && next == p + 1
      ensures live == old(live) + {p} && actors == old(actors)
    {
      p := next;
      next := next + 1;
      live := live + {p};
    }

    method Free(p: Ptr)
      requires Valid() && p in live
      modifies `live
      ensures Valid() && live == old(live) - {p}
    {
      live := live - {p};
    }

    /** Frees a member and clears it, if it is set. */
    method FreeField(self: Ptr, f: Field)
      requires Valid() && IsOwner(live, actors, self)
      modifies `live, `actors
      ensures Valid() && IsOwner(live, actors, self)
      ensures actors == old(actors)[self := old(actors)[self][f := 0]]
      ensures live - Blocks(actors, self) == old(live - Blocks(actors, self))
    {
      StringsWithout(actors[self], f);
      var p := actors[self][f];
      actors := actors[self := actors[self][f := 0]];
      if p != 0 {
        Free(p);
      }
    }

    method FreeOrigin(self: Ptr)
      requires Valid() && IsOwner(live, actors, self)
      modifies `live, `actors
      ensures Valid() && IsOwner(live, actors, self)
      ensures actors == old(actors)[self := WithoutOrigin(old(actors)[self])]
      ensures live - Blocks(actors, self) == old(live - Blocks(actors, self))
    {
      FreeField(self, EventTimestamp);
      FreeField(self, EventUuid);
      FreeField(self, SourceIp);
    }

    method FreePath(self: Ptr)
      requires Valid() && IsOwner(live, actors, self)
      modifies `live, `actors
      ensures Valid() && IsOwner(live, actors, self)
      ensures actors == old(actors)[self := WithoutPath(old(actors)[self])]
      ensures live - Blocks(actors, self) == old(live - Blocks(actors, self))
    {
      FreeField(self, DestinationIp);
      FreeField(self, TransportType);
      FreeField(self, CollectedMethod);
    }

    method FreeMessage(self: Ptr)
      requires Valid() && IsOwner(live, actors, self)
      modifies `live, `actors
      ensures Valid() && IsOwner(live, actors, self)
      ensures actors == old(actors)[self := WithoutMessage(old(actors)[self])]
      ensures live - Blocks(actors, self) == old(live - Blocks(actors, self))
    {
      FreeField(self, CalledNumber);
      FreeField(self, Method);
      FreeField(self, UserAgent);
    }

    method FreeStatistics(self: Ptr)
      requires Valid() && IsOwner(live, actors, self)
      modifies `live, `actors
      ensures Valid() && IsOwner(live, actors, self)
      ensures actors == old(actors)[self := WithoutStatistics(old(actors)[self])]
      ensures live - Blocks(actors, self) == old(live - Blocks(actors, self))
    {
      FreeField(self, SeenLast);
      FreeField(self, SeenCount);
      FreeField(self, CreatedByNodeId);
    }

    /** `bad_actor_destroy`: frees exactly the blocks of the event. */
    method BadActorDestroy(self: Ptr) returns (cleared: Ptr)
      requires Valid() && (self != 0 ==> IsOwner(live, actors, self))
      modifies `live, `actors
      ensures Valid() && cleared == 0
      ensures live == if self == 0 then old(live) else old(live) - Blocks(old(actors), self)
      ensures forall p :: p in old(actors) && p != self ==> p in actors && actors[p] == old(actors)[p]
    {
      if self != 0 {
        FreeOrigin(self);
        FreePath(self);
        FreeMessage(self);
        FreeField(self, SipMessage);
        FreeStatistics(self);
        assert Strings(actors[self]) == {};
        Free(self);
      }
      return 0;
    }

    /** A copy of a string as one more constructor argument. */
    method PassDuplicate(given: Slots, f: Field) returns (more: Slots)
      requires Valid() && IsTotal(given) && HasDistinctStrings(given) && Strings(given) <= live && given[f] == 0
      requires HasNoOwn(given) && IsUnparsed(given)
      requires f == SourceIp || f == DestinationIp || f == TransportType || f == CollectedMethod
      modifies `live, `next
      ensures Valid() && IsTotal(more) && HasDistinctStrings(more) && Strings(more) <= live
      ensures old(live) <= live && live - Strings(more) == old(live) - Strings(given)
      ensures more == given[f := old(next)] && HasNoOwn(more) && IsUnparsed(more)
    {
      StringsWith(given, f, next);
      var duplicate := Malloc();
      more := given[f := duplicate];
    }

    /** `bad_actor_new`: the event takes over the strings it is given and gets three of its own. */
    method BadActorNew(given: Slots) returns (self: Ptr)
      requires Valid() && IsTotal(given) && HasDistinctStrings(given) && Strings(given) <= live
      requires HasNoOwn(given)
      modifies this
      ensures Valid() && IsOwner(live, actors, self)
      ensures live - Blocks(actors, self) == old(live) - Strings(given)
      ensures old(live) <= live && Blocks(actors, self) * old(live) == Strings(given)
      ensures forall f :: f != EventTimestamp && f != EventUuid && f != CreatedByNodeId ==> actors[self][f] == given[f]
      ensures actors[self][EventTimestamp] != 0 && actors[self][EventUuid] != 0 && actors[self][CreatedByNodeId] != 0
      ensures self !in old(actors) && forall p :: p in old(actors) ==> p in actors && actors[p] == old(actors)[p]
    {
      self := Malloc();
      var timeStr := Malloc();
      var uuidString := Malloc();
      var nodeId := Malloc();
      var slots := given[EventTimestamp := timeStr];
      StringsWith(given, EventTimestamp, timeStr);
      StringsWith(slots, EventUuid, uuidString);
      slots := slots[EventUuid := uuidString];
      StringsWith(slots, CreatedByNodeId, nodeId);
      actors := actors[self := slots[CreatedByNodeId := nodeId]];
    }

    /** Stores a copy of a string in a member that is not set. */
    method SetDuplicate(self: Ptr, f: Field)
      requires Valid() && IsOwner(live, actors, self) && actors[self][f] == 0
      modifies this
      ensures Valid() && IsOwner(live, actors, self)
      ensures old(live) <= live && live - Blocks(actors, self) == old(live - Blocks(actors, self))
      ensures actors[self][f] != 0 && forall g :: g != f ==> actors[self][g] == old(actors)[self][g]
      ensures forall p :: p in old(actors) ==> p in actors && (p != self ==> actors[p] == old(actors)[p])
    {
      StringsWith(actors[self], f, next);
      var duplicate := Malloc();
      actors := actors[self := actors[self][f := duplicate]];
    }

    /**
     * `sip_message_parser`: a parsed packet sets four members, another at most the text. On any outcome, what it
     * allocated belongs to the event.
     */
    method SipMessageParser(self: Ptr, outcome: Parsing) returns (ok: bool)
      requires Valid() && IsOwner(live, actors, self)
      requires IsUnparsed(actors[self])
      modifies this
      ensures Valid() && IsOwner(live, actors, self) && ok == outcome.Parsed?
      ensures live - Blocks(actors, self) == old(live - Blocks(actors, self)) && old(live) <= live
      ensures actors[self][SipMessage] != 0 <==> outcome.Parsed? || outcome == NoText(true)
      ensures actors[self][Method] != 0 <==> outcome.Parsed?
      ensures actors[self][CalledNumber] != 0 <==> outcome.Parsed?
      ensures actors[self][UserAgent] != 0 <==> outcome.Parsed?
      ensures forall f :: f != SipMessage && f != Method && f != CalledNumber && f != UserAgent ==>
                actors[self][f] == old(actors)[self][f]
    {
      if outcome.Refused? {
        return false;
      }
      if outcome.Parsed? || outcome.withText {
        SetDuplicate(self, SipMessage);
      }
      if outcome.NoText? {
        return false;
      }
      SetDuplicate(self, Method);
      SetDuplicate(self, CalledNumber);
      SetDuplicate(self, UserAgent);
      return true;
    }

    /** `sip_log_event`: on every path the event and all its strings are freed, and nothing else is. */
    method SipLogEvent(packetLen: nat, parsing: Parsing, logged: bool, p2pDhtMode: bool, saved: bool) returns (ok: bool)
      requires Valid()
      modifies this
      ensures Valid() && live == old(live)
      ensures ok == ((packetLen > 0 ==> parsing.Parsed?) && logged && (p2pDhtMode ==> saved))
    {
      var event := NewSipEvent();
      if packetLen > 0 {
        var parsed := SipMessageParser(event, parsing);
        if !parsed {
          event := BadActorDestroy(event);
          return false;
        }
      }
      if !logged {
        event := BadActorDestroy(event);
        return false;
      }
      if p2pDhtMode && !saved {
        event := BadActorDestroy(event);
        return false;
      }
      event := BadActorDestroy(event);
      return true;
    }

    /** The four strings that are known before parsing. */
    method SipStrings() returns (given: Slots)
      requires Valid()
      modifies `live, `next
      ensures Valid() && IsTotal(given) && HasDistinctStrings(given) && Strings(given) <= live
      ensures old(live) <= live && live - Strings(given) == old(live)
      ensures HasNoOwn(given) && IsUnparsed(given)
      ensures given[SourceIp] != 0 && given[DestinationIp] != 0 && given[TransportType] != 0 && given[CollectedMethod] != 0
    {
      given := NoStrings();
      given := PassDuplicate(given, SourceIp);
      given := PassDuplicate(given, DestinationIp);
      given := PassDuplicate(given, TransportType);
      given := PassDuplicate(given, CollectedMethod);
    }

    /** The event of a SIP packet before it is parsed. */
    method NewSipEvent() returns (event: Ptr)
      requires Valid()
      modifies this
      ensures Valid() && IsOwner(live, actors, event) && event != 0
      ensures live - Blocks(actors, event) == old(live)
      ensures IsUnparsed(actors[event]) && HasOwn(actors[event])
      ensures actors[event][SourceIp] != 0 && actors[event][DestinationIp] != 0
      ensures actors[event][TransportType] != 0 && actors[event][CollectedMethod] != 0
    {
      var given := SipStrings();
      event := BadActorNew(given);
    }

    /** `bad_actors_destroy` on a filled array. */
    method BadActorsDestroy(badActors: seq<Ptr>)
      requires Valid() && badActors != [] && AreOwners(live, actors, badActors)
      modifies `live, `actors
      ensures Valid() && live == old(live) - BlocksOfAll(old(actors), badActors)
    {
      OwnersAreLive(live, actors, badActors);
      if badActors[0] != 0 {
        var rowNum := 0;
        while rowNum < |badActors|
          invariant rowNum <= |badActors| && Valid() && AreOwners(live, actors, badActors[rowNum..])
          invariant BlocksOfAll(actors, badActors[rowNum..]) <= live <= old(live)
          invariant live - BlocksOfAll(actors, badActors[rowNum..]) == old(live - BlocksOfAll(actors, badActors))
        {
          DestroyFirst(badActors[rowNum..]);
          assert badActors[rowNum..][1..] == badActors[rowNum + 1..];
          rowNum := rowNum + 1;
        }
        assert badActors[rowNum..] == [];
      }
    }

    /** One round of that loop. */
    method DestroyFirst(ps: seq<Ptr>)
      requires Valid() && ps != [] && AreOwners(live, actors, ps)
      modifies `live, `actors
      ensures Valid() && AreOwners(live, actors, ps[1..]) && live <= old(live)
      ensures BlocksOfAll(actors, ps[1..]) <= live
      ensures live - BlocksOfAll(actors, ps[1..]) == old(live - BlocksOfAll(actors, ps))
    {
      OwnersAreLive(live, actors, ps[1..]);
      ghost var liveBefore, actorsBefore := live, actors;
      var _ := BadActorDestroy(ps[0]);
      OwnersFrame(liveBefore, actorsBefore, live, actors, ps[1..]);
    }

    /** The address of a row. */
    method RowStrings() returns (given: Slots)
      requires Valid()
      modifies `live, `next
      ensures Valid() && IsTotal(given) && HasDistinctStrings(given) && Strings(given) <= live
      ensures old(live) <= live && live - Strings(given) == old(live)
      ensures HasNoOwn(given) && given[SourceIp] != 0 && given[SeenLast] == given[SeenCount] == 0
    {
      given := NoStrings();
      given := PassDuplicate(given, SourceIp);
    }

    /** The event of a row of the grouped query, with its address only. */
    method NewRowEvent() returns (self: Ptr)
      requires Valid()
      modifies this
      ensures Valid() && IsOwner(live, actors, self) && actors[self][SeenLast] == actors[self][SeenCount] == 0
      ensures HasOwn(actors[self]) && actors[self][SourceIp] != 0
      ensures old(live) <= live && live - Blocks(actors, self) == old(live)
      ensures forall p :: p in old(actors) ==> p in actors && p != self && actors[p] == old(actors)[p]
    {
      var given := RowStrings();
      self := BadActorNew(given);
    }

    /** A row of the grouped query as an event. */
    method NewRow() returns (self: Ptr)
      requires Valid()
      modifies this
      ensures Valid() && IsOwner(live, actors, self) && IsRowEvent(actors[self])
      ensures old(live) <= live && live - Blocks(actors, self) == old(live)
      ensures forall p :: p in old(actors) ==> p in actors && actors[p] == old(actors)[p]
    {
      self := NewRowEvent();
      SetDuplicate(self, SeenLast);
      SetDuplicate(self, SeenCount);
    }

    /**
     * `db_select_bad_actors`, from the allocation of the array on. `steps`: how many rows the statement yields.
     * A success hands over the array and its events. A statement that ends early loses the events filled so far.
     */
    method DbSelectBadActors(rowCount: nat, steps: nat, finalized: bool, closed: bool)
      returns (ok: bool, badActorsArray: Ptr, badActors: seq<Ptr>)
      requires Valid() && rowCount > 0
      modifies this
      ensures Valid() && ok == (rowCount <= steps && finalized && closed)
      ensures ok ==> |badActors| == rowCount && AreOwners(live, actors, badActors) && AreRowEvents(actors, badActors)
      ensures ok ==> badActorsArray in live && badActorsArray !in BlocksOfAll(actors, badActors)
      ensures ok ==> live - BlocksOfAll(actors, badActors) - {badActorsArray} == old(live)
      ensures rowCount <= steps && !ok ==> live == old(live)
      ensures steps < rowCount ==> |badActors| == steps && live == old(live) + BlocksOfAll(actors, badActors)
      ensures steps < rowCount ==> BlocksOfAll(actors, badActors) !! old(live)
    {
      badActorsArray := Malloc();
      badActors := [];
      ghost var base := live;
      var rowNum := 0;
      while rowNum < rowCount
        invariant rowNum <= rowCount && rowNum <= steps && |badActors| == rowNum && Valid()
        invariant AreOwners(live, actors, badActors) && BlocksOfAll(actors, badActors) !! base
        invariant AreRowEvents(actors, badActors)
        invariant live == base + BlocksOfAll(actors, badActors)
      {
        if rowNum == steps {
          Free(badActorsArray);
          return false, 0, badActors;
        }
        badActors := AppendRow(badActors);
        rowNum := rowNum + 1;
      }
      if !finalized || !closed {
        BadActorsDestroy(badActors);
        Free(badActorsArray);
        return false, 0, [];
      }
      return true, badActorsArray, badActors;
    }

    /** One round of the fetch loop. */
    method AppendRow(badActors: seq<Ptr>) returns (more: seq<Ptr>)
      requires Valid() && AreOwners(live, actors, badActors) && AreRowEvents(actors, badActors)
      modifies this
      ensures Valid() && AreOwners(live, actors, more) && |more| == |badActors| + 1 && AreRowEvents(actors, more)
      ensures live - BlocksOfAll(actors, more) == old(live - BlocksOfAll(actors, badActors))
      ensures BlocksOfAll(actors, more) <= live
      ensures old(live) <= live && BlocksOfAll(actors, more) * old(live) == old(BlocksOfAll(actors, badActors))
    {
      OwnersAreLive(live, actors, badActors);
      ghost var liveBefore, actorsBefore := live, actors;
      var self := NewRow();
      OwnersFrame(liveBefore, actorsBefore, live, actors, badActors);
      OwnersAppend(live, actors, badActors, self);
      more := badActors + [self];
    }

    /** `ip_addresses_route`: whatever the select and the JSON rows do, only an early end of the rows loses blocks. */
    method IpAddressesRoute(rowCount: nat, steps: nat, finalized: bool, closed: bool, appendFails: Option<nat>)
      returns (found: bool)
      requires Valid() && rowCount > 0
      modifies this
      ensures Valid() && (live == old(live) <==> steps == 0 || rowCount <= steps)
      ensures found == (rowCount <= steps && finalized && closed && (appendFails.None? || rowCount <= appendFails.value))
    {
      var ok, badActorsArray, badActors := DbSelectBadActors(rowCount, steps, finalized, closed);
      if !ok {
        assert badActors != [] ==> badActors[0] in BlocksOfAll(actors, badActors);
        return false;
      }
      var rowNum := 0;
      while rowNum < rowCount
        invariant rowNum <= rowCount && (appendFails.Some? ==> rowNum <= appendFails.value)
      {
        if appendFails == Some(rowNum) {
          BadActorsDestroy(badActors);
          Free(badActorsArray);
          return false;
        }
        rowNum := rowNum + 1;
      }
      BadActorsDestroy(badActors);
      Free(badActorsArray);
      return true;
    }
  }
}
