/**
 * One SentryPeer node: the four places an event goes to (JSON log, honey table, WebHook, DHT) and
 * the two callers, the SIP daemon for local events and the DHT listener for received values.
 * The build without Rust is modelled. What the file system, SQLite, curl and OpenDHT answer is an
 * argument (`JsonIo`, `InsertIo`, ...), so every combination of failures is covered. A WebHook call can also end
 * the process or never return; its outcome is that of the WebHook client on a script of replies.
 */
module Node {
  import opened Text
  import opened Events
  import WebHook

  datatype Config = Config(nodeId: string, jsonLogMode: bool, webhookMode: bool, oauth2Mode: bool, dhtMode: bool)

  /** What a node has written so far: log lines, rows, WebHook bodies accepted and values put on the DHT. */
  datatype Store = Store(jsonLog: seq<JsonObject>, table: seq<Row>, posts: seq<JsonObject>, puts: seq<JsonObject>)

  /**
   * `json_log_bad_actor`: fopen fails; the line is written; fprintf fails, which nobody notices; or fclose
   * fails, with or without a complete line in the file.
   */
  datatype JsonIo = CannotOpen | Written | LineLost | CloseFailed(complete: bool)

  /** `db_insert_bad_actor`: no row; row and success; or row, then finalize or close fails. */
  datatype InsertIo = NotInserted | Inserted | InsertedThenFailed

  datatype LogIo = LogIo(json: JsonIo, insert: InsertIo, script: seq<WebHook.Attempt>)

  function JsonLogged(st: Store, e: BadActor, io: JsonIo): (Store, bool) {
    if io.CannotOpen? || ToJson(e).None? then (st, false)
    else if io.LineLost? then (st, true)
    else if io.Written? then (st.(jsonLog := st.jsonLog + [ToJson(e).value]), true)
    else (if io.complete then st.(jsonLog := st.jsonLog + [ToJson(e).value]) else st, false)
  }

  function RowInserted(st: Store, e: BadActor, io: InsertIo): (Store, bool) {
    if io.NotInserted? then (st, false)
    else (st.(table := st.table + [RowOf(e)]), io.Inserted?)
  }

  /** `json_http_post_bad_actor` for an event: a failure without JSON, else what the client makes of the script. */
  function WebHookCall(cfg: Config, token: Option<string>, e: BadActor, script: seq<WebHook.Attempt>): WebHook.Result {
    if ToJson(e).None? then WebHook.Result(WebHook.Failure, token, [])
    else WebHook.Posted(cfg.oauth2Mode, token, script)
  }

  /** The call comes back to `bad_actor_log`. */
  predicate Returns(outcome: WebHook.Outcome) {
    outcome.Success? || outcome.Failure?
  }

  function Posted(st: Store, e: BadActor, outcome: WebHook.Outcome): Store {
    if outcome.Success? && ToJson(e).Some? then st.(posts := st.posts + [ToJson(e).value]) else st
  }

  /** `peer_to_peer_dht_save`: fails if the event has no JSON or the value cannot be made. */
  function Published(st: Store, e: BadActor, valueMade: bool): (Store, bool) {
    if valueMade && ToJson(e).Some? then (st.(puts := st.puts + [ToJson(e).value]), true) else (st, false)
  }

  /**
   * `bad_actor_log`: JSON log, then table, then WebHook. Only the first two can fail the call, but the third can
   * abort it (with the whole process) or keep it running.
   */
  function Logged(cfg: Config, st: Store, token: Option<string>, e: BadActor, io: LogIo): (Store, WebHook.Result) {
    var (st1, ok1) := if cfg.jsonLogMode then JsonLogged(st, e, io.json) else (st, true);
    if !ok1 then (st1, WebHook.Result(WebHook.Failure, token, [])) else
    var (st2, ok2) := RowInserted(st1, e, io.insert);
    if !ok2 then (st2, WebHook.Result(WebHook.Failure, token, []))
    else if !cfg.webhookMode then (st2, WebHook.Result(WebHook.Success, token, []))
    else
      var r := WebHookCall(cfg, token, e, io.script);
      (Posted(st2, e, r.outcome), if r.outcome.Failure? then r.(outcome := WebHook.Success) else r)
  }

  /** The tail of `sip_log_event`: log, then put on the DHT last. */
  function LocallyLogged(cfg: Config, st: Store, token: Option<string>, e: BadActor, io: LogIo, valueMade: bool)
    : (Store, WebHook.Result)
  {
    var (st1, r) := Logged(cfg, st, token, e, io);
    if r.outcome.Success? && cfg.dhtMode then
      var (st2, ok) := Published(st1, e, valueMade);
      (st2, if ok then r else r.(outcome := WebHook.Failure))
    else (st1, r)
  }

  // ----- receiving -----

  /** The bytes of a DHT value: none, something that is not a JSON object, or an object. */
  datatype Payload = Empty | NotObject | Object(o: JsonObject)

  function UuidOf(p: Payload): Option<string> {
    if p.Object? then StringAt(p.o, KEYS[3]) else None
  }

  function NodeIdOf(p: Payload): Option<string> {
    if p.Object? then StringAt(p.o, KEYS[4]) else None
  }

  /** The filter of `dht_value_callback` up to the database check: the event_uuid to look up, if any. */
  function Screened(nodeId: string, p: Payload, expired: bool): Option<string> {
    if expired || !p.Object? then None
    else if NodeIdOf(p).None? || !IsUuid(NodeIdOf(p).value) then None
    else if StrncmpEqual(NodeIdOf(p).value, nodeId, |nodeId|) then None
    else if UuidOf(p).None? || !IsUuid(UuidOf(p).value) then None
    else UuidOf(p)
  }

  /** For UUID texts the bounded comparison of the origin filter is exactly equality. */
  lemma OriginFilterIsEquality(origin: string, nodeId: string)
    requires IsUuid(origin) && IsUuid(nodeId)
    ensures StrncmpEqual(origin, nodeId, |nodeId|) <==> origin == nodeId
  {
    StrncmpIsPrefix(origin, nodeId);
  }

  function TableUuids(table: seq<Row>): set<string> {
    set r | r in table && r.eventUuid.Some? :: r.eventUuid.value
  }

  /** The whole decision of the callback: the event it goes on to log, if any. */
  function Accepted(nodeId: string, table: seq<Row>, p: Payload, expired: bool, dbError: bool): (a: Option<BadActor>)
    ensures a.Some? ==> a.value.eventUuid == UuidOf(p) && a.value.createdByNodeId == NodeIdOf(p)
    ensures a.Some? ==> UuidOf(p).Some? && NodeIdOf(p).Some? && IsUuid(UuidOf(p).value)
    ensures a.Some? && !dbError ==> UuidOf(p).value !in TableUuids(table)
    ensures a.Some? ==> a.value.sourceIp.Some? && a.value.eventTimestamp.Some?
  {
    var candidate := Screened(nodeId, p, expired);
    if candidate.None? then None
    else if BadActorExists(table, candidate.value, dbError) then None
    else
      assert FromJson(p.o).Some? ==> StringAt(p.o, KEYS[7]).Some? && StringAt(p.o, KEYS[2]).Some?;
      FromJson(p.o)
  }

  /**
   * What a value must be to be logged, in terms of its members: not expired, an object with the thirteen strings,
   * both ids UUIDs, not the own id, and not answered to be in the table.
   */
  predicate IsWanted(nodeId: string, table: seq<Row>, p: Payload, expired: bool, dbError: bool) {
    && !expired && p.Object? && HoldsThirteenStrings(p.o)
    && IsUuid(p.o["created_by_node_id"].text) && IsUuid(p.o["event_uuid"].text)
    && p.o["created_by_node_id"].text != nodeId
    && (dbError || forall r :: r in table ==> r.eventUuid != Some(p.o["event_uuid"].text))
  }

  lemma WantedExactly(nodeId: string, table: seq<Row>, p: Payload, expired: bool, dbError: bool)
    requires IsUuid(nodeId)
    ensures Accepted(nodeId, table, p, expired, dbError).Some? <==> IsWanted(nodeId, table, p, expired, dbError)
    ensures IsWanted(nodeId, table, p, expired, dbError) ==>
              Accepted(nodeId, table, p, expired, dbError) == FromJson(p.o)
  {
    if p.Object? {
      EventSpelledOut(p.o);
      if HoldsThirteenStrings(p.o) && IsUuid(p.o["created_by_node_id"].text) {
        OriginFilterIsEquality(p.o["created_by_node_id"].text, nodeId);
      }
    }
  }

  /** `db_bad_actor_exists`: any database error is answered with false. */
  predicate BadActorExists(table: seq<Row>, uuid: string, dbError: bool) {
    !dbError && IsUuid(uuid) && uuid in TableUuids(table)
  }

  lemma TableUuidsAppend(table: seq<Row>, r: Row)
    ensures TableUuids(table + [r]) == TableUuids(table) + if r.eventUuid.Some? then {r.eventUuid.value} else {}
  {
    assert forall x :: x in table + [r] <==> x in table || x == r;
    if r.eventUuid.Some? {
      assert r in table + [r];
    }
  }

  function Received(
    cfg: Config, st: Store, token: Option<string>, p: Payload, expired: bool, dbError: bool, io: LogIo)
    : (Store, WebHook.Result)
  {
    var a := Accepted(cfg.nodeId, st.table, p, expired, dbError);
    if a.None? then (st, WebHook.Result(WebHook.Success, token, [])) else Logged(cfg, st, token, a.value, io)
  }

  /** The row is, column by column, what the object says under that name. */
  predicate IsRowOf(r: Row, p: Payload) {
    && p.Object? && HoldsThirteenStrings(p.o)
    && r.eventTimestamp == Some(p.o["event_timestamp"].text) && r.eventUuid == Some(p.o["event_uuid"].text)
    && r.collectedMethod == Some(p.o["collected_method"].text) && r.sourceIp == Some(p.o["source_ip"].text)
    && r.calledNumber == Some(p.o["called_number"].text) && r.transportType == Some(p.o["transport_type"].text)
    && r.sipMethod == Some(p.o["sip_method"].text) && r.userAgent == Some(p.o["sip_user_agent"].text)
    && r.sipMessage == Some(p.o["sip_message"].text) && r.createdByNodeId == Some(p.o["created_by_node_id"].text)
  }

  lemma AcceptedColumns(p: Payload)
    requires p.Object? && FromJson(p.o).Some?
    ensures IsRowOf(RowOf(FromJson(p.o).value), p)
  {
    EventSpelledOut(p.o);
  }

  lemma LoggedTable(cfg: Config, st: Store, token: Option<string>, e: BadActor, io: LogIo)
    ensures var st' := Logged(cfg, st, token, e, io).0;
            && st'.puts == st.puts && (st'.table == st.table || st'.table == st.table + [RowOf(e)])
            && (!cfg.jsonLogMode && io.insert == Inserted ==> st'.table == st.table + [RowOf(e)])
  {
  }

  /** A received value is stored at most once, column by column, only if it is wanted, and nothing is put on the DHT. */
  lemma ReceivedRow(
    cfg: Config, st: Store, token: Option<string>, p: Payload, expired: bool, dbError: bool, io: LogIo)
    requires IsUuid(cfg.nodeId)
    ensures var st' := Received(cfg, st, token, p, expired, dbError, io).0;
            && st'.puts == st.puts
            && (st'.table == st.table || exists r :: st'.table == st.table + [r] && IsRowOf(r, p))
            && (st'.table != st.table ==> IsWanted(cfg.nodeId, st.table, p, expired, dbError))
            && (IsWanted(cfg.nodeId, st.table, p, expired, dbError) && !cfg.jsonLogMode && io.insert == Inserted ==>
                  st'.table != st.table)
  {
    WantedExactly(cfg.nodeId, st.table, p, expired, dbError);
    var a := Accepted(cfg.nodeId, st.table, p, expired, dbError);
    if a.Some? {
      AcceptedColumns(p);
      LoggedTable(cfg, st, token, a.value, io);
      assert IsRowOf(RowOf(a.value), p);
    }
  }

  /** An otherwise acceptable value that carries the receiver's own id passes exactly if its case differs. */
  lemma EchoExactly(nodeId: string, table: seq<Row>, p: Payload, dbError: bool)
    requires IsUuid(nodeId) && p.Object? && FromJson(p.o).Some? && SameUuid(NodeIdOf(p).value, nodeId)
    requires IsUuid(UuidOf(p).value) && !BadActorExists(table, UuidOf(p).value, dbError)
    ensures Accepted(nodeId, table, p, false, dbError).Some? <==> Recased(NodeIdOf(p).value, nodeId)
  {
    OriginFilterIsEquality(NodeIdOf(p).value, nodeId);
  }

  // ----- the process -----

  class Process {
    const cfg: Config
    const client: WebHook.Client
    var jsonLog: seq<JsonObject>
    var table: seq<Row>
    var posts: seq<JsonObject>
    var puts: seq<JsonObject>

    ghost predicate Valid() {
      client.oauth2 == cfg.oauth2Mode
    }

    function View(): Store
      reads this
    {
      Store(jsonLog, table, posts, puts)
    }

    constructor (cfg: Config)
      ensures Valid() && this.cfg == cfg && View() == Store([], [], [], [])
      ensures fresh(client) && client.accessToken == None && client.made == []
    {
      this.cfg := cfg;
      client := new WebHook.Client(cfg.oauth2Mode);
      jsonLog, table, posts, puts := [], [], [], [];
    }

    method JsonLogBadActor(e: BadActor, io: JsonIo) returns (ok: bool)
      modifies this`jsonLog
      ensures (View(), ok) == JsonLogged(old(View()), e, io)
      ensures jsonLog == old(jsonLog) +
                         if ToJson(e).Some? && (io == Written || io == CloseFailed(true)) then [ToJson(e).value] else []
      ensures ok == (ToJson(e).Some? && (io == Written || io == LineLost))
    {
      if io == CannotOpen { return false; }
      var json := ToJson(e);
      if json == None { return false; }
      if io.Written? || (io.CloseFailed? && io.complete) {
        jsonLog := jsonLog + [json.value];
      }
      return !io.CloseFailed?;
    }

    method DbInsertBadActor(e: BadActor, io: InsertIo) returns (ok: bool)
      modifies this`table
      ensures (View(), ok) == RowInserted(old(View()), e, io)
      ensures table == old(table) + (if io == NotInserted then [] else [RowOf(e)]) && ok == (io == Inserted)
      ensures io != NotInserted ==>
                var r := table[|old(table)|];
                && r.eventTimestamp == e.eventTimestamp && r.eventUuid == e.eventUuid
                && r.collectedMethod == e.collectedMethod && r.sourceIp == e.sourceIp
                && r.calledNumber == e.calledNumber && r.transportType == e.transportType
                && r.sipMethod == e.sipMethod && r.userAgent == e.userAgent
                && r.sipMessage == e.sipMessage && r.createdByNodeId == e.createdByNodeId
    {
      if io == NotInserted { return false; }
      table := table + [RowOf(e)];
      return io == Inserted;
    }

    /** The client's state after a call. */
    twostate predicate Called(r: WebHook.Result)
      reads client
    {
      client.accessToken == r.cached && client.made == old(client.made) + r.made
    }

    method PostBadActor(e: BadActor, script: seq<WebHook.Attempt>) returns (outcome: WebHook.Outcome)
      requires Valid()
      modifies this`posts, client
      ensures var r := WebHookCall(cfg, old(client.accessToken), e, script);
              outcome == r.outcome && Called(r) && View() == Posted(old(View()), e, r.outcome)
      ensures ToJson(e).None? ==> outcome.Failure? && client.made == old(client.made)
      ensures ToJson(e).Some? ==>
                outcome == WebHook.Posted(cfg.oauth2Mode, old(client.accessToken), script).outcome
      ensures posts == old(posts) + if outcome.Success? then [ToJson(e).value] else []
    {
      var json := ToJson(e);
      if json == None { return WebHook.Failure; }
      outcome := client.PostBadActor(script);
      if outcome.Success? {
        posts := posts + [json.value];
      }
    }

    /** Log, table, WebHook; what the early exits leave undone is what these clauses leave out. */
    method BadActorLog(e: BadActor, io: LogIo) returns (outcome: WebHook.Outcome)
      requires Valid()
      modifies this`jsonLog, this`table, this`posts, client
      ensures var (st, r) := Logged(cfg, old(View()), old(client.accessToken), e, io);
              View() == st && outcome == r.outcome && Called(r)
      ensures jsonLog == old(jsonLog) +
                         if cfg.jsonLogMode && ToJson(e).Some? && (io.json == Written || io.json == CloseFailed(true))
                         then [ToJson(e).value] else []
      ensures var logged := cfg.jsonLogMode ==> ToJson(e).Some? && (io.json == Written || io.json == LineLost);
              var called := logged && io.insert == Inserted && cfg.webhookMode;
              var end := if ToJson(e).None? then WebHook.Failure
                         else WebHook.Posted(cfg.oauth2Mode, old(client.accessToken), io.script).outcome;
              && table == old(table) + (if logged && io.insert != NotInserted then [RowOf(e)] else [])
              && posts == old(posts) + (if called && end.Success? then [ToJson(e).value] else [])
              && (outcome.Failure? <==> !(logged && io.insert == Inserted))
              && (outcome.Aborted? <==> called && end.Aborted?) && (outcome.Running? <==> called && end.Running?)
    {
      if cfg.jsonLogMode {
        var logged := JsonLogBadActor(e, io.json);
        if !logged { return WebHook.Failure; }
      }
      var inserted := DbInsertBadActor(e, io.insert);
      if !inserted { return WebHook.Failure; }
      if cfg.webhookMode {
        outcome := PostBadActor(e, io.script);
        if !Returns(outcome) { return; }
      }
      return WebHook.Success;
    }

    method SipLogEvent(e: BadActor, io: LogIo, valueMade: bool) returns (outcome: WebHook.Outcome)
      requires Valid()
      modifies this, client
      ensures var (st, r) := LocallyLogged(cfg, old(View()), old(client.accessToken), e, io, valueMade);
              View() == st && outcome == r.outcome && Called(r)
      ensures var logged := Logged(cfg, old(View()), old(client.accessToken), e, io).1.outcome;
              var published := valueMade && ToJson(e).Some?;
              && puts == old(puts) + (if logged.Success? && cfg.dhtMode && published then [ToJson(e).value] else [])
              && outcome == if logged.Success? && cfg.dhtMode && !published then WebHook.Failure else logged
    {
      outcome := BadActorLog(e, io);
      if outcome != WebHook.Success { return; }
      if cfg.dhtMode {
        var json := ToJson(e);
        if json == None || !valueMade { return WebHook.Failure; }
        puts := puts + [json.value];
      }
    }

    /**
     * `taken`: the value goes on to `bad_actor_log`. What the effect means for the table is stated by `ReceivedRow`;
     * the source returns true whatever the outcome of logging is.
     */
    method DhtValueCallback(p: Payload, expired: bool, dbError: bool, io: LogIo)
      returns (outcome: WebHook.Outcome, taken: bool)
      requires Valid()
      modifies this`jsonLog, this`table, this`posts, client
      ensures var (st, r) := Received(cfg, old(View()), old(client.accessToken), p, expired, dbError, io);
              View() == st && outcome == r.outcome && Called(r)
      ensures IsUuid(cfg.nodeId) ==>
                (taken <==>
                   && !expired && p.Object? && HoldsThirteenStrings(p.o)
                   && IsUuid(p.o["created_by_node_id"].text) && IsUuid(p.o["event_uuid"].text)
                   && p.o["created_by_node_id"].text != cfg.nodeId
                   && (dbError || forall r :: r in old(table) ==> r.eventUuid != Some(p.o["event_uuid"].text)))
      ensures !taken ==> View() == old(View()) && outcome.Success?
    {
      if IsUuid(cfg.nodeId) {
        WantedExactly(cfg.nodeId, table, p, expired, dbError);
      }
      outcome, taken := WebHook.Success, false;
      if expired || !p.Object? { return; }
      if NodeIdOf(p) == None || !IsUuid(NodeIdOf(p).value) { return; }
      if StrncmpEqual(NodeIdOf(p).value, cfg.nodeId, |cfg.nodeId|) { return; }
      if UuidOf(p) == None || !IsUuid(UuidOf(p).value) { return; }
      if BadActorExists(table, UuidOf(p).value, dbError) { return; }
      var e := FromJson(p.o);
      if e == None { return; }
      taken := true;
      outcome := BadActorLog(e.value, io);
      assert Accepted(cfg.nodeId, old(table), p, expired, dbError) == e;
    }
  }
}
