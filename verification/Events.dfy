/** The bad_actor event, its row in the honey table and its JSON object. */
module Events {
  import opened Text

  /** The eleven stored fields of `struct bad_actor`; None is a NULL pointer. */
  datatype BadActor = BadActor(
    eventTimestamp: Option<string>,
    eventUuid: Option<string>,
    createdByNodeId: Option<string>,
    collectedMethod: Option<string>,
    transportType: Option<string>,
    sourceIp: Option<string>,
    destinationIp: Option<string>,
    calledNumber: Option<string>,
    sipMethod: Option<string>,
    userAgent: Option<string>,
    sipMessage: Option<string>)

  /** The ten bound columns of the honey table (there is no destination_ip column); None is SQL NULL. */
  datatype Row = Row(
    eventTimestamp: Option<string>,
    eventUuid: Option<string>,
    collectedMethod: Option<string>,
    sourceIp: Option<string>,
    calledNumber: Option<string>,
    transportType: Option<string>,
    sipMethod: Option<string>,
    userAgent: Option<string>,
    sipMessage: Option<string>,
    createdByNodeId: Option<string>)

  function RowOf(e: BadActor): Row {
    Row(e.eventTimestamp, e.eventUuid, e.collectedMethod, e.sourceIp, e.calledNumber,
        e.transportType, e.sipMethod, e.userAgent, e.sipMessage, e.createdByNodeId)
  }

  // ----- JSON -----

  datatype JsonValue = JString(text: string) | JOther

  type JsonObject = map<string, JsonValue>

  const APP_NAME := "sentrypeer"
  const APP_VERSION := "4.0.6"

  const KEYS := ["app_name", "app_version", "event_timestamp", "event_uuid", "created_by_node_id",
                 "collected_method", "transport_type", "source_ip", "destination_ip", "called_number",
                 "sip_method", "sip_user_agent", "sip_message"]

  function OrEmpty(field: Option<string>): string {
    if field.Some? then field.value else ""
  }

  /** The thirteen texts packed under KEYS, in the order of KEYS. */
  function Texts(e: BadActor): (t: seq<string>)
    ensures |t| == |KEYS|
  {
    [APP_NAME, APP_VERSION, OrEmpty(e.eventTimestamp), OrEmpty(e.eventUuid), OrEmpty(e.createdByNodeId),
     OrEmpty(e.collectedMethod), OrEmpty(e.transportType), OrEmpty(e.sourceIp), OrEmpty(e.destinationIp),
     OrEmpty(e.calledNumber), OrEmpty(e.sipMethod), OrEmpty(e.userAgent), OrEmpty(e.sipMessage)]
  }

  predicate AllUtf8(e: BadActor) {
    forall t :: t in Texts(e) ==> IsUtf8(t)
  }

  /** `json_pack("{s:s,...}")`: each key set in turn. */
  function Pack(keys: seq<string>, texts: seq<string>): JsonObject
    requires |keys| == |texts|
  {
    if keys == [] then map[]
    else Pack(keys[..|keys| - 1], texts[..|keys| - 1])[keys[|keys| - 1] := JString(texts[|keys| - 1])]
  }

  /** `bad_actor_to_json`: NULL becomes "", and packing fails on a field that is not UTF-8. */
  function ToJson(e: BadActor): Option<JsonObject> {
    if AllUtf8(e) then Some(Pack(KEYS, Texts(e))) else None
  }

  function StringAt(o: JsonObject, key: string): Option<string> {
    if key in o && o[key].JString? then Some(o[key].text) else None
  }

  predicate HasAllKeys(o: JsonObject) {
    forall i :: 0 <= i < |KEYS| ==> StringAt(o, KEYS[i]).Some?
  }

  /** `json_to_bad_actor`: validate the thirteen keys, then take eleven of them. */
  function FromJson(o: JsonObject): Option<BadActor> {
    if !HasAllKeys(o) then None else
    Some(BadActor(
      StringAt(o, KEYS[2]), StringAt(o, KEYS[3]), StringAt(o, KEYS[4]), StringAt(o, KEYS[5]),
      StringAt(o, KEYS[6]), StringAt(o, KEYS[7]), StringAt(o, KEYS[8]), StringAt(o, KEYS[9]),
      StringAt(o, KEYS[10]), StringAt(o, KEYS[11]), StringAt(o, KEYS[12])))
  }

  /** NULL replaced by the empty string, the only information JSON loses. */
  function Filled(field: Option<string>): Option<string> {
    Some(OrEmpty(field))
  }

  function Normal(e: BadActor): BadActor {
    BadActor(
      Filled(e.eventTimestamp), Filled(e.eventUuid), Filled(e.createdByNodeId), Filled(e.collectedMethod),
      Filled(e.transportType), Filled(e.sourceIp), Filled(e.destinationIp), Filled(e.calledNumber),
      Filled(e.sipMethod), Filled(e.userAgent), Filled(e.sipMessage))
  }

  function NormalRow(r: Row): Row {
    Row(Filled(r.eventTimestamp), Filled(r.eventUuid), Filled(r.collectedMethod), Filled(r.sourceIp),
        Filled(r.calledNumber), Filled(r.transportType), Filled(r.sipMethod), Filled(r.userAgent),
        Filled(r.sipMessage), Filled(r.createdByNodeId))
  }

  lemma NormalCommutes(e: BadActor)
    ensures RowOf(Normal(e)) == NormalRow(RowOf(e))
    ensures Normal(Normal(e)) == Normal(e)
    ensures NormalRow(NormalRow(RowOf(e))) == NormalRow(RowOf(e))
  {
  }

  /** The thirteen key texts are pairwise different. */
  lemma KeysAreDistinct()
    ensures |KEYS| == 13
    ensures forall i, j :: 0 <= i < j < |KEYS| ==> KEYS[i] != KEYS[j]
  {
    assert KEYS[0][4] != KEYS[1][4];
    assert forall i :: 2 <= i < |KEYS| ==> KEYS[i][0] != 'a';
  }

  lemma {:induction false} PackedTexts(keys: seq<string>, texts: seq<string>, i: nat)
    requires |keys| == |texts| && i < |keys|
    requires forall i, j :: 0 <= i < j < |keys| ==> keys[i] != keys[j]
    ensures StringAt(Pack(keys, texts), keys[i]) == Some(texts[i])
  {
    var n := |keys| - 1;
    if i < n {
      PackedTexts(keys[..n], texts[..n], i);
    }
  }

  /** Parsing what was serialised gives the event back with NULL as ""; a second trip changes nothing. */
  lemma JsonRoundTrip(e: BadActor)
    ensures ToJson(e).Some? <==> AllUtf8(e)
    ensures ToJson(e).Some? ==> FromJson(ToJson(e).value) == Some(Normal(e))
    ensures ToJson(Normal(e)) == ToJson(e)
  {
    KeysAreDistinct();
    assert Texts(Normal(e)) == Texts(e);
    if ToJson(e).Some? {
      forall i | 0 <= i < |KEYS|
        ensures StringAt(ToJson(e).value, KEYS[i]) == Some(Texts(e)[i])
      {
        PackedTexts(KEYS, Texts(e), i);
      }
    }
  }

  /** The converse trip: what an accepted object says under the eleven event keys is what is sent on. */
  lemma ReserialisedObject(o: JsonObject)
    requires FromJson(o).Some? && AllUtf8(FromJson(o).value)
    ensures forall i :: 2 <= i < |KEYS| ==> StringAt(ToJson(FromJson(o).value).value, KEYS[i]) == StringAt(o, KEYS[i])
  {
    var e := FromJson(o).value;
    KeysAreDistinct();
    forall i | 2 <= i < |KEYS|
      ensures StringAt(ToJson(e).value, KEYS[i]) == StringAt(o, KEYS[i])
    {
      PackedTexts(KEYS, Texts(e), i);
      assert StringAt(o, KEYS[i]).Some?;
    }
  }

  // ----- the format, spelled out -----

  predicate HoldsString(o: JsonObject, key: string) {
    key in o && o[key].JString?
  }

  /** The thirteen members of the format by name. */
  predicate HoldsThirteenStrings(o: JsonObject) {
    && HoldsString(o, "app_name") && HoldsString(o, "app_version")
    && HoldsString(o, "event_timestamp") && HoldsString(o, "event_uuid")
    && HoldsString(o, "created_by_node_id") && HoldsString(o, "collected_method")
    && HoldsString(o, "transport_type") && HoldsString(o, "source_ip")
    && HoldsString(o, "destination_ip") && HoldsString(o, "called_number")
    && HoldsString(o, "sip_method") && HoldsString(o, "sip_user_agent")
    && HoldsString(o, "sip_message")
  }

  lemma {:induction false} PackedKeys(keys: seq<string>, texts: seq<string>, key: string)
    requires |keys| == |texts|
    ensures key in Pack(keys, texts) <==> key in keys
  {
    if keys != [] {
      var n := |keys| - 1;
      PackedKeys(keys[..n], texts[..n], key);
      assert key in keys <==> key in keys[..n] || key == keys[n];
    }
  }

  lemma MemberAt(e: BadActor, i: nat)
    requires AllUtf8(e) && i < |KEYS|
    ensures KEYS[i] in ToJson(e).value && ToJson(e).value[KEYS[i]] == JString(Texts(e)[i])
  {
    KeysAreDistinct();
    PackedTexts(KEYS, Texts(e), i);
  }

  /** The object that is logged, posted and published has these members and no others. */
  lemma MembersSpelledOut(e: BadActor)
    requires AllUtf8(e)
    ensures ToJson(e).Some?
    ensures forall key :: key in ToJson(e).value <==>
              key in [
                "app_name", "app_version", "event_timestamp", "event_uuid", "created_by_node_id",
                "collected_method", "transport_type", "source_ip", "destination_ip", "called_number",
                "sip_method", "sip_user_agent", "sip_message"]
  {
    forall key: string
      ensures key in ToJson(e).value <==> key in KEYS
    {
      PackedKeys(KEYS, Texts(e), key);
    }
  }

  /** The program, and where and when the event was seen; NULL is "". */
  lemma HeadSpelledOut(e: BadActor)
    requires AllUtf8(e)
    ensures HoldsString(ToJson(e).value, "app_name")
    ensures ToJson(e).value["app_name"].text == "sentrypeer"
    ensures HoldsString(ToJson(e).value, "app_version")
    ensures ToJson(e).value["app_version"].text == "4.0.6"
    ensures HoldsString(ToJson(e).value, "event_timestamp")
    ensures ToJson(e).value["event_timestamp"].text == (if e.eventTimestamp.Some? then e.eventTimestamp.value else "")
    ensures HoldsString(ToJson(e).value, "event_uuid")
    ensures ToJson(e).value["event_uuid"].text == (if e.eventUuid.Some? then e.eventUuid.value else "")
    ensures HoldsString(ToJson(e).value, "created_by_node_id")
    ensures ToJson(e).value["created_by_node_id"].text == (if e.createdByNodeId.Some? then e.createdByNodeId.value else "")
    ensures HoldsString(ToJson(e).value, "collected_method")
    ensures ToJson(e).value["collected_method"].text == (if e.collectedMethod.Some? then e.collectedMethod.value else "")
    ensures HoldsString(ToJson(e).value, "transport_type")
    ensures ToJson(e).value["transport_type"].text == (if e.transportType.Some? then e.transportType.value else "")
  {
    MemberAt(e, 0);
    MemberAt(e, 1);
    MemberAt(e, 2);
    MemberAt(e, 3);
    MemberAt(e, 4);
    MemberAt(e, 5);
    MemberAt(e, 6);
  }

  /** What was seen; NULL is "". */
  lemma TailSpelledOut(e: BadActor)
    requires AllUtf8(e)
    ensures HoldsString(ToJson(e).value, "source_ip")
    ensures ToJson(e).value["source_ip"].text == (if e.sourceIp.Some? then e.sourceIp.value else "")
    ensures HoldsString(ToJson(e).value, "destination_ip")
    ensures ToJson(e).value["destination_ip"].text == (if e.destinationIp.Some? then e.destinationIp.value else "")
    ensures HoldsString(ToJson(e).value, "called_number")
    ensures ToJson(e).value["called_number"].text == (if e.calledNumber.Some? then e.calledNumber.value else "")
    ensures HoldsString(ToJson(e).value, "sip_method")
    ensures ToJson(e).value["sip_method"].text == (if e.sipMethod.Some? then e.sipMethod.value else "")
    ensures HoldsString(ToJson(e).value, "sip_user_agent")
    ensures ToJson(e).value["sip_user_agent"].text == (if e.userAgent.Some? then e.userAgent.value else "")
    ensures HoldsString(ToJson(e).value, "sip_message")
    ensures ToJson(e).value["sip_message"].text == (if e.sipMessage.Some? then e.sipMessage.value else "")
  {
    MemberAt(e, 7);
    MemberAt(e, 8);
    MemberAt(e, 9);
    MemberAt(e, 10);
    MemberAt(e, 11);
    MemberAt(e, 12);
  }

  /** Reading an object: the thirteen strings must be there, eleven of them are the event. */
  lemma EventSpelledOut(o: JsonObject)
    ensures FromJson(o).Some? <==> HoldsThirteenStrings(o)
    ensures HoldsThirteenStrings(o) ==>
              FromJson(o).value == BadActor(
                Some(o["event_timestamp"].text),
                Some(o["event_uuid"].text),
                Some(o["created_by_node_id"].text),
                Some(o["collected_method"].text),
                Some(o["transport_type"].text),
                Some(o["source_ip"].text),
                Some(o["destination_ip"].text),
                Some(o["called_number"].text),
                Some(o["sip_method"].text),
                Some(o["sip_user_agent"].text),
                Some(o["sip_message"].text))
  {
    assert HoldsThirteenStrings(o) <==> HasAllKeys(o) by {
      assert HasAllKeys(o) ==> StringAt(o, KEYS[0]).Some?;
      assert HasAllKeys(o) ==> StringAt(o, KEYS[1]).Some?;
      assert HasAllKeys(o) ==> StringAt(o, KEYS[2]).Some?;
      assert HasAllKeys(o) ==> StringAt(o, KEYS[3]).Some?;
      assert HasAllKeys(o) ==> StringAt(o, KEYS[4]).Some?;
      assert HasAllKeys(o) ==> StringAt(o, KEYS[5]).Some?;
      assert HasAllKeys(o) ==> StringAt(o, KEYS[6]).Some?;
      assert HasAllKeys(o) ==> StringAt(o, KEYS[7]).Some?;
      assert HasAllKeys(o) ==> StringAt(o, KEYS[8]).Some?;
      assert HasAllKeys(o) ==> StringAt(o, KEYS[9]).Some?;
      assert HasAllKeys(o) ==> StringAt(o, KEYS[10]).Some?;
      assert HasAllKeys(o) ==> StringAt(o, KEYS[11]).Some?;
      assert HasAllKeys(o) ==> StringAt(o, KEYS[12]).Some?;
    }
  }
}
