# SentryPeer: a model of the honeypot node and its proofs

SentryPeer records each SIP probe as a `bad_actor` event, writes it to a JSON log and to the SQLite table `honey`,
posts it to a WebHook, and publishes it on an OpenDHT network from which other nodes copy it. An HTTP API answers
queries over the table. This project models that control flow in Dafny and proves what it is for. The C build without
Rust is modelled. `dafny verify dfyconfig.toml` checks everything.

What libraries and the operating system answer is always an argument (a script of replies, a set of reported
descriptors, an outcome of fopen, SQLite, curl or OpenDHT), so each theorem covers every combination of failures that
it does not exclude by name.

| file | models |
|---|---|
| `Text.dfy`, `TextForms.dfy`, `Sequences.dfy`, `Decimal.dfy` | C strings, byte order, UUID text and UTF-8, and what the last two accept; sequences; printf and strtol-like decimals |
| `Events.dfy` | the event, its row and its JSON object |
| `Node.dfy` | one node: the four sinks, the SIP side and the DHT listener, as a class |
| `Replication.dfy`, `ReplicationSafety.dfy`, `Convergence.dfy`, `Progress.dfy` | any number of nodes and one bag of DHT values, stage by stage; safety of every run; convergence of honest runs, and that they can converge from any point |
| `UuidCase.dfy` | the same runs with UUIDs read as values |
| `WebHookStage.dfy` | what a WebHook call does to the protocol when it returns, aborts the process or never comes back |
| `Sinks.dfy` | what the JSON log, the table, the posts and the puts have in common over whole runs |
| `GroupBy.dfy`, `PhoneNumbers.dfy`, `Reporting.dfy` | the SQL queries and the fetch loops |
| `ReachableReports.dfy` | the queries over tables that a run can reach, and their seen_last as a time |
| `WebHook.dfy` | the POST with its OAuth2 token machine, and the growing reply buffer |
| `SelectLoop.dfy` | the select() loop of the SIP daemon |
| `Buffers.dfy`, `Options.dfy`, `Timestamp.dfy` | fixed buffers written in place, start-up options, the timestamp text |
| `Routes.dfy` | HTTP dispatch and the two regular expressions |
| `Ownership.dfy` | malloc and free of events and result arrays |

Results that turned out different from what one may expect of the code:

- `db_bad_actor_exists` answers false on a database error, so an error at the wrong moment stores an event twice:
  `ReplicationSafety.DatabaseErrorCounterexample` is a concrete run, `ReplicationSafety.UniqueExactly` with
  `ReplicationSafety.MisjudgedExactly` is the exact condition.
- A failing WebHook never stops a DHT put, but one whose token answer is unusable ends the process and one that keeps
  getting 401 or 403 never comes back; in both cases the put never happens: `WebHookStage.PublishingExactly`,
  `WebHookStage.AbortedCallLosesPut`, `WebHookStage.EndlessCallDelaysPut`.
- The result of fprintf is not looked at, so a row can lack its log line: `Sinks.RowWithoutLine`,
  `Sinks.LogContainsTableExactly`.
- UUIDs are compared as texts but accepted in either case, so a forged value with a node's own id in the other case is
  stored: `UuidCase.RecasedEchoIsStored`, `Node.EchoExactly`.
- `src/utils.h:30` promises nine digits behind the point of a timestamp, the code prints at least six. The text order,
  which `max(event_timestamp)` uses, is then not always the time order within one second, and a report's seen_last not
  always the latest: `Timestamp.OrderIsKeptExactly`, `ReachableReports.SeenLastIsLatestExactly` and
  `ReachableReports.SeenLastCanBeEarlier`.
- The text that `regex_match` returns runs to the end of the URL; it is the captured group exactly if no newline
  follows: `Routes.SuffixIsGroupExactly`, `Routes.NewlineIsReturned`. `/ip-addresses/ipset` has an exact route but is never served:
  `Routes.IpsetIsShadowed`.
- If the grouped query ends early, `db_select_bad_actors` frees only the array ("Nothing in there yet"); it loses
  memory exactly if a row was filled before: `Ownership.Memory.IpAddressesRoute`.
- A called number outside the listing filter (such as one with a leading zero) is found by the single lookup and never
  listed: `Reporting.FoundButNotListed`, `Reporting.LeadingZeroIsNeverListed`.

## Model

| member | source | states |
|---|---|---|
| `Events.JsonRoundTrip` | src/json_logger.c:237-416 | serialising succeeds exactly for UTF-8 fields; parsing gives all eleven fields back with NULL as ""; a second trip changes nothing |
| `Events.ReserialisedObject` | src/json_logger.c:237-416 | an accepted object and the object sent on agree on all eleven event keys |
| `Events.MembersSpelledOut` | src/json_logger.c:237-302 | the object has exactly the thirteen keys of the format, "destination_ip", "app_name" and "app_version" among them, all with texts |
| `Events.HeadSpelledOut` | src/json_logger.c:237-302 | app_name, app_version and the first event keys, each with its own field or text |
| `Events.TailSpelledOut` | src/json_logger.c:237-302 | the remaining keys, each with its own field |
| `Events.EventSpelledOut` | src/json_logger.c:304-416 | an object is accepted exactly if the thirteen keys are there with texts; each field of the event is then the text under its own key |
| `TextForms.UuidTextsExactly` | src/utils.c:79-91 | what uuid_unparse_lower prints from 128 bits is exactly the lower-case UUID texts, and a text is a UUID exactly if it is one of them in lower case |
| `TextForms.SameUuidExactly` | src/utils.c:145-152 | two UUID texts have one value exactly if they are equal in lower case |
| `TextForms.Utf8Exactly` | src/json_logger.c:241-292 | a text can be packed exactly if it is the UTF-8 encoding of some Unicode scalar values |
| `Node.OriginFilterIsEquality` | src/peer_to_peer_dht.c:126-136 | for UUID texts the bounded comparison of the origin filter is equality |
| `Node.WantedExactly` | src/peer_to_peer_dht.c:52-202 | the listener goes on to log a value exactly if it is not expired, has the thirteen keys with texts, both its ids are UUIDs, its origin is not the own id, and the existence check said no; the event is then the one of the object |
| `Node.ReceivedRow` | src/peer_to_peer_dht.c:38-225 | one received value adds at most one row, which is, column by column, what the value says under the key of that column; only a wanted value adds one, and it does if nothing fails; nothing is put on the DHT |
| `Node.EchoExactly` | src/peer_to_peer_dht.c:109-136 | an otherwise acceptable value with the receiver's own UUID passes the origin filter exactly if some letter has the other case |
| `Node.Process.BadActorLog` | src/bad_actor.c:92-148 | log, then table, then WebHook client, each with what its own failures leave undone; a failed WebHook does not fail the call, an aborted one ends it and an endless one keeps it |
| `Node.Process.SipLogEvent` | src/sip_daemon.c:163-186 | the event is put on the DHT last, and only if logging came back with success |
| `Node.Process.DhtValueCallback` | src/peer_to_peer_dht.c:38-225 | for every payload, table and flag, the callback goes on to log an event exactly under the conditions listed for `Node.WantedExactly`, and changes nothing otherwise |
| `Replication.InvRun` | src/peer_to_peer_dht.c:38-225 | in every run: a UUID on its way to the table is not in it and not on the DHT yet, a misjudged one is in it, received work never carries the node's own id, all rows have UUID, address and timestamp |
| `Replication.PublishedUuid` | src/json_logger.c:237-302 | a published value carries the event's UUID and origin |
| `ReplicationSafety.UniqueExactly` | src/peer_to_peer_dht.c:138-212 | whatever is forged, repeated, reordered or failing, a run ends without two rows of one event_uuid on a node exactly if no event was stored whose existence check was misjudged |
| `ReplicationSafety.MisjudgedExactly` | src/database.c:234-258 | a node takes up a misjudged event exactly when its database fails on a deliverable value whose event_uuid it has stored |
| `ReplicationSafety.NoDuplicates` | src/peer_to_peer_dht.c:138-212 | no node holds two rows with one event_uuid in any run whose existence checks answered rightly |
| `ReplicationSafety.SoundRun` | src/database.c:220-305 | a check that did not deny a stored event stays right until its insert, although local inserts fall in between |
| `ReplicationSafety.WrongAnswerDuplicates` | src/database.c:234-258 | from any state and in any mode, a misjudged value is stored twice when its event is inserted, whatever happens in between |
| `ReplicationSafety.DatabaseErrorCounterexample` | src/database.c:234-258 | a run of two nodes that ends with the same event twice in one table |
| `ReplicationSafety.NoEcho` | src/peer_to_peer_dht.c:126-136 | no event stored by delivery carries the text of the receiver's id; rows that do are rows of its own events |
| `ReplicationSafety.NoStorm` | src/peer_to_peer_dht.c:184-212 | while no value is added, effective deliveries and the (node, event) pairs still missing never exceed the pairs missing at first |
| `ReplicationSafety.EffectsAreBounded` | src/peer_to_peer_dht.c:184-212 | over any whole run, effective deliveries never exceed the (node, event) pairs that are on the DHT and in the node's table |
| `ReplicationSafety.TrafficIsBounded` | src/peer_to_peer_dht.c:309-354 | over any whole run, the values on the DHT never exceed the local events of all nodes and the forged values: deliveries publish nothing |
| `ReplicationSafety.ReportedColumnsAreSet` | src/sip_daemon.c:143-147 | in every reachable table source_ip, event_timestamp and event_uuid are never NULL |
| `UuidCase.NoEchoByValue` | src/peer_to_peer_dht.c:109-136 | unless a value with its id in another case was forged, every row with the UUID value of a node's id is the row of its own event |
| `UuidCase.ForgedIsStoredExactly` | src/peer_to_peer_dht.c:109-212 | which forged objects a fresh node stores: exactly those with two UUIDs whose origin text is not its own id |
| `UuidCase.OriginsAreUuids` | src/peer_to_peer_dht.c:109-119 | in every run, every row has a UUID as created_by_node_id, and a foreign one is that of a value on the DHT |
| `UuidCase.RecasedEchoIsStored` | src/peer_to_peer_dht.c:126-136 | a node stores a forged value that carries its own id in another case |
| `UuidCase.RecasedValueExists` | src/utils.c:79-91 | there is such a value |
| `UuidCase.NoDuplicateValues` | src/database.c:220-305 | without wrong answers and forged upper-case UUIDs no table holds one UUID value twice |
| `Convergence.CleanRunInv` | src/peer_to_peer_dht.c:184-212 | honest runs, in which only log lines get lost and WebHook calls end in any way, lose no event: it is being worked on, or stored and published; each received value is dealt with |
| `Convergence.Converged` | src/peer_to_peer_dht.c:38-225 | once every value reached every node, a node's table is a permutation of the rows of all events ever generated, replicas with NULL as "" |
| `Convergence.Confluent` | src/peer_to_peer_dht.c:38-225 | two such runs with the same events, in any order of events, deliveries and repetitions, leave the same tables |
| `Convergence.NodesAgree` | src/peer_to_peer_dht.c:38-225 | at the end all nodes hold the same events up to NULL and "" |
| `Progress.FinishTask` | src/bad_actor.c:110-147 | the remaining stages of an event on a running node can be finished while nothing else in the cluster moves |
| `Progress.CanSettle` | src/peer_to_peer_dht.c:38-225 | an honest run in which no node was aborted can be continued, without new events, until every node's table is a permutation of the rows of all events |
| `Progress.SettlesExactly` | src/json_logger.c:153-157 | an honest run can be continued to such an end exactly if no WebHook call has aborted a node |
| `Sinks.SinkChain` | src/bad_actor.c:110-147 | in every run, with any failures and for any property of rows: rows >= posts, own rows >= puts, and log lines >= rows if no line got lost |
| `Sinks.LogBalance` | src/json_logger.c:446-454 | in every run, lines and lost lines are together the rows, the events about to be inserted and the events dropped behind their line |
| `Sinks.LogContainsTableExactly` | src/json_logger.c:446-454 | the log contains the rows exactly if no more lines got lost than events were left behind |
| `Sinks.RowWithoutLine` | src/json_logger.c:446-454 | a run that ends with a row and an empty log, because fprintf failed and fclose did not |
| `Sinks.PutsAreBounded` | src/sip_daemon.c:163-178 | a node never puts more values than it has logged events of its own |
| `Sinks.SwitchedOffStaysEmpty` | src/bad_actor.c:110-147 | in every run, what is switched off stays unused: no log lines without json_log_mode, no posts without webhook_mode, no puts without p2p_dht_mode; and nothing received gets to the DHT stage |
| `WebHookStage.PostExactly` | src/json_logger.c:153-157 | an event leaves the WebHook stage exactly if the client returns, and the node stops exactly if it aborts; otherwise nothing changes |
| `WebHookStage.PublishingExactly` | src/sip_daemon.c:163-178 | in any run of a node with a WebHook, a local event gets to the DHT stage exactly if its WebHook call returned |
| `WebHookStage.PutsFollowReturns` | src/sip_daemon.c:163-178 | every value put on the DHT is that of an event whose WebHook call returned before |
| `WebHookStage.SuccessAndFailureAgree` | src/bad_actor.c:137-147 | runs whose WebHook calls differ only between success and failure have the same tables, logs, puts and DHT: a failed WebHook never stops a put |
| `WebHookStage.StoppedIsFrozen` | src/json_logger.c:153-157 | after an abort nothing on the node changes any more |
| `WebHookStage.AbortedCallLosesPut` | src/json_logger.c:153-157 | a run in which a token answer without a token leaves a stored event that no continuation ever puts on the DHT |
| `WebHookStage.EndlessCallDelaysPut` | src/json_logger.c:623-645 | a run in which, however many 401 answers came, the event is stored and not put |
| `Sinks.CallbackIsItsStages` | src/peer_to_peer_dht.c:184-212 | the protocol's stages of one received value, uninterrupted, are the effect of the callback, whether its WebHook call returns, aborts or runs on |
| `Sinks.SipLogIsItsStages` | src/sip_daemon.c:163-178 | the protocol's stages of one local event, uninterrupted, are the effect of logging and publishing it, whether its WebHook call returns, aborts or runs on |
| `GroupBy.GroupingIsDetermined` | src/database.h:40-41 | two results of the grouped query are permutations of each other |
| `GroupBy.Reference` | src/database.h:40-41 | a row-by-row evaluation that yields a grouping, sorted by the greatest timestamp |
| `GroupBy.GroupCount` | src/database.h:38-41 | without NULL keys the grouped query has as many groups as the count query counted |
| `GroupBy.DistinctCountGrows` | src/database.h:38-39 | inserts never lower the count |
| `GroupBy.TotalsAddUp` | src/database.h:40-41 | the counts of the groups add up to the number of rows with a key |
| `PhoneNumbers.ToIntegerOfPrint` | src/database.h:51-55 | a printed 64-bit integer is read back as itself |
| `PhoneNumbers.ListedExactly` | src/database.h:51-55 | the filter accepts a leading plus or the canonical text of a 64-bit integer, nothing else |
| `PhoneNumbers.DigitsListedExactly` | src/database.h:51-55 | a digits-only number is listed exactly when it has no superfluous zero and is at most 2^63-1 |
| `PhoneNumbers.NegativeListedExactly` | src/database.h:51-55 | a number with a minus sign is listed exactly when the rest is canonical, not zero, and at most 2^63 |
| `Reporting.Fetch` | src/database.c:435-476 | the loop succeeds exactly if each of its row_count steps gives a row without NULL, and then returns exactly these rows |
| `Reporting.NeverRunsOut` | src/database.c:393-476 | rows inserted between the two queries never leave the second one with fewer groups than were counted |
| `Reporting.AnswersAreCopyable` | src/database.c:453-473 | over a reachable table no column that is copied is NULL |
| `Reporting.SelectList` | src/database.c:380-617 | with any inserts in between, a list query returns the first row_count groups of the later answer, and all of them if there were none |
| `Reporting.ListIsGroupBy` | src/database.c:380-496 | without inserts: one entry per key, its timestamp the greatest of its rows, the list sorted by it, no row without its entry |
| `Reporting.AddressListSpelledOut` | src/database.h:38-41 | the address list has an entry for each source_ip of the table and for nothing else, as many as there are distinct ones; each shows the event_timestamp of one of its rows and, as seen_count, how many rows there are |
| `Reporting.NumberListSpelledOut` | src/database.h:51-55 | the same of the number list and the called_number values that pass the filter |
| `Reporting.SeenCountsAddUp` | src/database.c:461-473 | the printed seen_count values of the address list, read as numbers, add up to the size of the table |
| `Reporting.ListedIsFound` | src/database.c:619-690 | what a list shows is in the column of the single lookup, then and after any inserts, and a listed number passes the filter |
| `Reporting.LookUp` | src/database.c:307-378 | if no call fails, the lookup of an address finds it exactly if some row has it as source_ip, that of a number exactly if some row has it as called_number, and returns that text; else nothing |
| `Reporting.MatchIsDetermined` | src/database.h:27-28 | the statement has one answer: the text once, or nothing |
| `Reporting.AddressIsFoundExactlyIfListed` | src/database.c:307-378 | over tables without NULL addresses, some row has the address exactly if the full address list has an entry for it |
| `Reporting.FoundButNotListed` | src/database.h:45-55 | a number that can be looked up is listed exactly if it passes the filter |
| `Reporting.LeadingZeroIsNeverListed` | src/database.h:45-55 | a stored number with a superfluous leading zero is found and never listed |
| `ReachableReports.ListDuringRun` | src/database.c:380-617 | on every reachable table, with any steps of the network between the two queries, a list query succeeds with as many entries as were counted |
| `ReachableReports.SeenLastIsLatestExactly` | src/database.h:40-41 | the seen_last of an entry is the time of the latest event of its key exactly if no other fraction of that second misorders |
| `ReachableReports.SeenLastCanBeEarlier` | src/database.h:40-41 | two probes of one address at five and ten milliseconds: the list shows the first one's time |
| `WebHook.Client.PostBadActor` | src/json_logger.c:457-674 | outcome, cached token and requests of the recursive call are those of the function that the lemmas below describe request by request |
| `WebHook.Client.RequestBearerToken` | src/json_logger.c:71-177 | one token request unless setting it up fails; the token is cached exactly if it was granted |
| `WebHook.SuccessExactly` | src/json_logger.c:612-673 | with OAuth2 the call succeeds exactly if the last POST got 200 or 201, and all earlier ones got 401 or 403 |
| `WebHook.PlainPost` | src/json_logger.c:523-673 | without OAuth2 there is one POST without a bearer unless setting it up fails, no token request and no retry, and success exactly on 200 or 201 |
| `WebHook.TokenAccounting` | src/json_logger.c:220-235 | token requests are the POSTs, less one if a token was cached at entry; failures add at most one request |
| `WebHook.BearerIsNewest` | src/json_logger.c:179-235 | each POST carries the header made of the token granted last, and after a success that token is cached |
| `WebHook.PostsCarryTheToken` | src/json_logger.c:179-218 | the bearer of each POST is the token granted last before it, or the cached one, whole up to 4096 bytes and else its first 4096 bytes |
| `WebHook.PostCountExactly` | src/json_logger.c:523-645 | there are k POSTs exactly if k attempts get as far as their POST, and all but the last of these were answered with 401 or 403 in OAuth2 mode |
| `WebHook.EndsExactly` | src/json_logger.c:612-673 | for every mode and script, which replies go with success, failure, an abort and a call that runs on |
| `WebHook.AbortsExactly` | src/json_logger.c:153-157 | the process is aborted exactly if, after refused POSTs only, an attempt without a token gets an answer without one |
| `WebHook.CachedExactly` | src/json_logger.c:220-235 | the token that is left follows from the requests: a granted one is kept until 401 or 403 |
| `WebHook.PostsFollowScript` | src/json_logger.c:612-673 | the replies to the POSTs are those of the server's script, in order |
| `WebHook.LaterRepliesAreIrrelevant` | src/json_logger.c:623-673 | a call that returned is not changed by later replies |
| `WebHook.Terminates` | src/json_logger.c:623-645 | the call returns on every endless script in which some reply is neither 401 nor 403 |
| `WebHook.RunsForever` | src/json_logger.c:623-645 | it never returns while unhindered attempts get 401 or 403 |
| `WebHook.MemoryStruct.SaveJsonResults` | src/json_logger.c:45-60 | the buffer grows by exactly the chunk and stays terminated |
| `WebHook.ReceiveBody` | src/json_logger.c:45-60 | however a body is cut into chunks, the buffer ends up with the body |
| `SelectLoop.Pass` | src/sip_daemon.c:402-735 | one pass: listeners stay watched; recv only on reported clients, once, not after a close or reuse. In a completed pass every reported client is read, and closed exactly if it sent nothing; what was closed is neither watched nor open unless its number was accepted again; a connection is accepted exactly if the listener is ready and accept gives a free number; recvmsg takes place exactly at the turns that get as far while UDP is ready. An early end has its cause in the last action |
| `SelectLoop.Visit` | src/sip_daemon.c:411-735 | the turn of one descriptor, action by action, and how it ends; the scan invariant is kept |
| `SelectLoop.AcceptClient` | src/sip_daemon.c:414-458 | exactly one accept; the new descriptor is watched and open, and is not one that this pass will still read |
| `SelectLoop.ReadClient` | src/sip_daemon.c:461-477 | one recv; closed and dropped exactly if it was empty, else kept; given up if a packet has no destination |
| `SelectLoop.SipDaemon` | src/sip_daemon.c:395-735 | all passes of any run are safe in this sense, each watches what the one before left, and the loop ends only when select fails or a pass does |
| `Buffers.UtilCopyString` | src/utils.c:62-77 | a source that fits replaces the string exactly, also at full length; a longer one changes nothing; the last byte stays 0 |
| `Buffers.SetFileLocation` | src/conf.c:409-521 | the buffer is that of the specification whose meaning `Buffers.LocatedMeaning` states, and its last byte stays 0 |
| `Buffers.LocatedMeaning` | src/conf.c:409-521 | absolute argument, else environment, else working directory: exact where it fits, cut to 4096 bytes where it does not |
| `Buffers.RunOps` | src/conf.c:409-521 | after any sequence of copies and location calls no write left the buffer and its last byte is 0 |
| `Buffers.LastStoredWins` | src/conf.c:409-521 | the value is that of the last operation that stored one |
| `Options.SentryPeerConfig.constructor` | src/conf.c:39-112 | the defaults, mode by mode and string by string, in six separate zero-terminated buffers |
| `Options.SentryPeerConfig.ProcessEnvVars` | src/conf.c:347-407 | the settings after the environment |
| `Options.SentryPeerConfig.ApplyOption` | src/conf.c:261-337 | one option: what it sets, which options end start-up, and with which status |
| `Options.SentryPeerConfig.ProcessCli` | src/conf.c:248-345 | if start-up goes on, each mode is on exactly if its default, its variables or its letters say so (sip_mode off), and each string is the last argument of its letter that fits its 4096 or 256 bytes, else its variable if that fits, else the default |
| `Options.FoldIsExpected` | src/conf.c:248-407 | folding option by option gives that order-free reference |
| `Options.StartedExactly` | src/conf.c:261-337 | start-up goes on exactly if it survives each option by itself |
| `Options.FirstStopDecides` | src/conf.c:261-337 | how start-up ends is decided by the first option that it does not survive |
| `Options.ModesIgnoreOrder` | src/conf.c:261-337 | the modes depend on which flags are given, not on their order or number |
| `Options.StringsDependOnOwnArguments` | src/conf.c:261-337 | two command lines with the same arguments per letter give the same settings |
| `Timestamp.EventTimestamp` | src/utils.c:27-48 | the buffer holds the whole text; nothing behind its 40 bytes is written |
| `Timestamp.StampFits` | src/utils.c:27-48 | at most 36 bytes and the NUL for every 32-bit year |
| `Timestamp.StampLayout` | src/utils.c:38-42 | the text is year-month-day hour:minute:second.fraction, each field two digits with its value, the fraction the nanoseconds in at least six digits |
| `Timestamp.StampIsInjective` | src/utils.c:38-42 | one text, one broken-down time and one nanosecond value |
| `Timestamp.DateOrder` | src/utils.c:38-42 | with four-digit years and different seconds, text order is time order |
| `Timestamp.OrderIsKeptExactly` | src/utils.c:41-42 | the later of two readings has the greater text always across seconds, within one exactly if its leading digits are at least the earlier fraction |
| `Timestamp.NineDigitsCompare` | src/utils.c:41-42 | that condition holds for fractions of at least 10^8 |
| `Timestamp.MaxIsLatest` | src/utils.c:41-42 | where the condition holds pairwise, the reading with the greatest text is a latest one |
| `Timestamp.MaxCanBeEarlier` | src/utils.c:41-42 | five and ten milliseconds into any second the earlier reading has the greater text |
| `Routes.SearchIsLeftmost` | src/http_routes.h:20-25 | the reported match is the leftmost and there the longest, or there is none |
| `Routes.RegexMatch` | src/regex_match.c:90-160 | fails exactly if there is no match, else returns the URL from the start of the group on |
| `Routes.SuffixIsGroupExactly` | src/regex_match.c:148-149 | that text is the captured group exactly if no newline follows the start of the group; for numbers, if the URL does not end in one |
| `Routes.NewlineIsReturned` | src/regex_match.c:148-149 | for "/numbers/1" with a newline behind it the group ends in front of the newline and the returned text includes it |
| `Routes.NumberIsAfterLast` | src/http_routes.h:24-25 | without newlines: the text after the last "/numbers/", if it is a number, else no match |
| `Routes.AddressIsAfterFirst` | src/http_routes.h:20-21 | without newlines: everything after the first "/ip-addresses/", if that is not nothing |
| `Routes.NoLiteralNoMatch` | src/http_routes.h:20-25 | a URL without the fixed part does not match |
| `Routes.Dispatch` | src/http_routes.c:72-146 | the chain of checks equals a table of exact routes followed by the two patterns |
| `Routes.ExactRoutesDoNotMatch` | src/http_routes.h:17-32 | no exact route but the ipset one matches a pattern, so the order of the checks does not matter |
| `Routes.IpsetIsShadowed` | src/http_routes.c:82-103 | the ipset URL is always treated as an address lookup of "ipset" |
| `Routes.Connection.RouteHandler` | src/http_routes.c:45-147 | context pointer, queries and responses after one call, for each outcome of the HTTP library; a completed call asks and answers what `Routes.DispatchedIsAnswered` says |
| `Routes.ConnectionInvariant` | src/http_routes.c:54-99 | over any calls each response took two GET calls, and an address reaches the database only if the validator accepted it |
| `Routes.OneResponsePerGet` | src/http_routes.c:57-147 | GETs one after the other on one connection get exactly one response each, in order, each with the query and the answer of its own URL, and leave the context clear |
| `Routes.DispatchedIsAnswered` | src/http_routes.c:72-146 | for every URL: "/health-check" and "/" answer 200 without a query; "/ip-addresses" asks for all addresses, "/numbers" for all numbers; an address in the URL is looked up if valid and answered with 400 if not; a number is looked up; the seven pages answer 200; every other URL 404 |
| `Routes.AnswersItsQuery` | src/http_ip_address_route.c:23-63 | a GET asks at most one query, and its response answers that query: its rows with 200, or 404 |
| `Ownership.Memory.BadActorNew` | src/bad_actor.c:61-90 | the event owns the given strings, each in its own member, and exactly four new blocks: itself, timestamp, UUID and node id |
| `Ownership.Memory.BadActorDestroy` | src/bad_actor.c:151-228 | frees exactly the event's blocks, each once |
| `Ownership.Memory.BadActorsDestroy` | src/bad_actor.c:230-240 | frees exactly the blocks of all events of the array |
| `Ownership.Memory.SipMessageParser` | src/sip_parser.c:26-137 | which of the four members each outcome sets; on every outcome, what was allocated belongs to the event |
| `Ownership.Memory.SipLogEvent` | src/sip_daemon.c:137-186 | on every exit path the live blocks are those before the call, and the result is success exactly if parsing, logging and publishing succeeded |
| `Ownership.Memory.DbSelectBadActors` | src/database.c:435-495 | a success hands over the array and its events, separate, alive and each with address, seen_last and seen_count; a failed close or finalize restores the heap; an early end of the rows loses the events filled so far |
| `Ownership.Memory.IpAddressesRoute` | src/http_ip_addresses_route.c:22-92 | for any row count, after select, JSON and release the heap is as before exactly unless the rows ended early after the first |

## Left out

- The Rust ports of the WebHook, the JSON log and the command line: they behave differently (a fresh event UUID on parse, failure after a successful retry, overwritten mode flags), and no equivalence is claimed.
- `bad_actor_log` with Rust built in and `new_mode` off, which skips the JSON log and the WebHook.
- JSON text, SQLite storage, PCRE2, DHT routing: an object is a map, the table a sequence, the two patterns predicates on spans, the DHT a bag of values.
- `json_to_bad_actor` is modelled on values; the allocation of the event it first builds and overwrites is not.
- Socket set-up, bind, control messages, FD_SETSIZE, TLS and the thread that runs the daemon; descriptors opened or closed by other threads during a pass.
- SelectLoop.Pass: the claim that UDP is read when ready is made for passes that complete; the code returns or stops on an unknown peer or sender, and a second recvmsg in a pass may block.
- libosip2 parsing: its outcome is an arbitrary choice, and a parsed packet sets all four fields.
- Node restarts: the table is on disk, but a run starts with empty tables and every node keeps its id.
- Replication.InvRun: node ids are distinct, generated UUIDs are fresh and in lower case, and a forged value does not carry a UUID that was generated but not stored yet, because that UUID has not left its node.
- Reporting.SelectList: the order among groups with equal timestamps is left open, as SQL leaves it open.
- Reporting.Fetch: a step failing inside SQLite is covered, a zero row count is a loop that does nothing; what calloc(0) returns is not.
- Ownership.Memory.DbSelectBadActors: a row count of zero and failures before the array is allocated are not part of it; the connection SQLite holds is not memory of the model.
- WebHook.Client.PostBadActor: one call at a time. The SIP thread and the DHT listener share the cached token and may free it under each other; the protocol lets each call start with any token instead.
- Other ways in which the process can stop (assertions on memory, signals) are not steps of a run.
- Error exits of `json_http_post_bad_actor` that abandon curl handles and headers.
- Timestamp.DateOrder: broken-down local time, so the hour that a clock change repeats is not ordered; a failing clock_gettime leaves the reading undefined and is not modelled.
- Timestamp.EventTimestamp: strftime's year is a plain decimal number; the C library's own padding of years below 1000 is not modelled.
- Buffers.SetFileLocation: `set_db_file_location` and `set_json_log_file_location` are one method, they differ in names only.
- Options.SentryPeerConfig.ProcessCli: options arrive as getopt decodes them; argument permutation and missing arguments are getopt's, and messages are not modelled.
- Routes.Connection.RouteHandler: response bodies are tags (rows of a query, an error, a page); headers and JSON indentation are not modelled.
- inet_pton is a parameter: whichever texts the validator accepts, only those reach the database.
- Buffers.LastStoredWins: a failing getcwd leaves the buffer unspecified up to its last byte, so such operations are excluded.
- Syslog, debug output, usage text, the fixed SIP reply, the health check text, signal handling.
- The web GUI theme, packaging, infrastructure files, the Perl prototype and the test tools.
