# matter2mqtt bridge core in Dafny

This project models the synchronisation core of matter2mqtt, a bridge that mirrors
the OnOff endpoints of a Matter server onto retained MQTT topics and sends MQTT
commands back to the devices. The model covers five parts:

- **Attribute keys and endpoint extraction** (`helpers.dfy`, module `Helpers`).
  - An attribute key `"<endpoint>/<cluster>/<attribute>"` is parsed with Python's
    `split("/", 2)` and `int()`.
  - The OnOff endpoints of one node are extracted in two imperative loops: one
    collects the set and the on/off dict, the other builds the sorted records.
- **Topic construction** (`topics.dfy`, module `Topics`). These are the state,
  availability, command and Home Assistant discovery topics, built by joining levels.
- **The MQTT side** (`bridge.dfy`, module `Bridge`).
  - `_on_message` parses an inbound command and appends it to the FIFO command
    queue (class `CommandQueue`).
  - `publish_retained` appends to a log of retained publications (class `MqttBridge`).
- **The command channel** (`commander.dfy`, module `Commander`).
  - The methods covered are `connect`, `ensure_connected`, `close`, `set_onoff` and
    `_reconnect_and_retry`.
  - Each is a method of class `MatterCommander` over the `client` and `session` fields
    plus a log of external calls. Each is proved equal to a specification function of
    the old state and an oracle of call outcomes.
- **The application** (`app.dfy`, module `App`).
  - `refresh_snapshot` is modelled as the state-diffing publisher over the
    `last_avail`/`last_state` caches.
  - One iteration of `command_consumer_task` is modelled.
  - `periodic_refresh_task` is modelled over a sequence of wake-ups, with its exit rule.
  - `stop` is modelled as well.
  - All of these are methods of class `Matter2Mqtt`. Each is proved equal to a
    function of the old state, and the properties are proved about those functions.

Shared pieces:

- `text.dfy` (module `Text`) models the Python string operations the code relies on:
  `str(int)`, `int(str)`, `split(sep, maxsplit)`, `strip()`, `upper()` and the
  substring test `in`.
- `models.dfy` (module `Models`) holds the constants and the `EndpointInfo` and
  `MqttCommand` records.
- `wrappers.dfy` (module `Wrappers`) holds `Option`, `Result` and `Outcome`.

The central invariant of the application is `App.CacheMatchesLog`. It says that each
cached value in `last_avail` and `last_state` is the payload last published on that
endpoint's retained topic. A refresh preserves it, and so does the whole periodic task.
The consumer step, as the source writes it, does not; see "## Findings".

## Model

| member | source | states |
|---|---|---|
| Text.ParseInt | matter_helpers.py:17 | `int(s)` accepts an optional sign followed by one or more decimal digits; a parsed string ends in a digit and has only digits after its first character |
| Text.ParseIntOfIntToString | matter_helpers.py:17 | reading back what `str(i)` printed gives `i` for every integer, negative ones included |
| Text.IntToStringInjective | topics.py:6-8 | distinct integers print differently |
| Text.Split | matter_helpers.py:16 | `split(sep, maxsplit)` gives at least one piece, and at most `maxsplit + 1` pieces when `maxsplit >= 0` |
| Text.SplitOfJoin | mqtt_bridge.py:72 | splitting the join of separator-free levels gives the levels back |
| Text.JoinOfSplit | mqtt_bridge.py:72 | joining the pieces of a split gives the original string back |
| Text.SplitLength | matter_helpers.py:16 | a split has at most one more piece than the string has separators |
| Text.SplitPiecesAvoidSep | mqtt_bridge.py:72 | a split on every separator leaves no separator in any piece |
| Text.Strip | mqtt_bridge.py:70 | `strip()` leaves no whitespace at either end |
| Text.StripIgnoresPadding | mqtt_bridge.py:70 | whitespace padding on either side does not change the stripped text |
| Text.UpperStripCommute | mqtt_bridge.py:70 | upper-casing and stripping commute |
| Text.UpperIdempotent | mqtt_bridge.py:70 | upper-casing twice is upper-casing once |
| Text.ContainsTransitive | matter2mqtt_app.py:185 | a substring of a substring of `s` is a substring of `s` |
| Helpers.ParseAttrKey | matter_helpers.py:9-19 | a parsed key has at least two separators; a missing or non-integer piece gives `None` instead of an exception (stated for every key by `Helpers.ParseAttrKeyPieces`) |
| Helpers.ParseAttrKeyRoundTrip | matter_helpers.py:9-17 | the key `"e/c/a"` written from three integers parses back to `(e, c, a)` |
| Helpers.ParseAttrKeyShortKeys | matter_helpers.py:15-19 | `"1/6"` and `"abc"` are rejected |
| Helpers.ParseAttrKeyExtraPiece | matter_helpers.py:15-19 | only the first two separators cut, so a key with a fourth piece keeps a `/` in its third piece and is rejected |
| Helpers.ParseAttrKeyFourPieces | matter_helpers.py:15-19 | `"1/6/0/5"` is rejected |
| Helpers.ParseAttrKeyNonInteger | matter_helpers.py:15-19 | `"1/x/0"` is rejected |
| Helpers.ParseAttrKeyPieces | matter_helpers.py:15-19 | for every key of three pieces, the first two free of `/`: it parses to `(e, c, a)` exactly when all three pieces are integers, and a non-integer piece anywhere gives `None` |
| Helpers.ParseAttrKeyOnOff | matter_helpers.py:9-17 | `"1/6/0"` is endpoint 1, cluster 6, attribute 0 |
| Helpers.OnOffEndpoints | matter_helpers.py:37-43 | the set `endpoints_with_onoff` of the first loop: the endpoints that some key names together with cluster 6; `Helpers.OnOffEndpointsMembership` and `Helpers.OnOffEndpointsAppend` state its meaning |
| Helpers.OnOffValue | matter_helpers.py:44-47 | the entry of `onoff_state_by_ep` for one endpoint: the truthiness of the value of the last `(ep, 6, 0)` key; `Helpers.OnOffValueLastWins` and `Helpers.OnOffValueAppend` state its meaning |
| Helpers.OnOffEndpointsMembership | matter_helpers.py:37-43 | an endpoint is collected if and only if some key parses with that endpoint and cluster 6 |
| Helpers.OnOffValueLastWins | matter_helpers.py:44-47 | the on/off value is unknown exactly when no key names `(ep, 6, 0)`; otherwise it is the truthiness of the value of the last such key |
| Helpers.OnOffEndpointsAppend | matter_helpers.py:37-43 | the endpoints collected from two runs of items are the union of each run's |
| Helpers.OnOffValueAppend | matter_helpers.py:44-47 | a later run of items overrides an earlier one's on/off value only where it has one |
| Helpers.SortedElements | matter_helpers.py:52 | `sorted(set)` is strictly ascending, has exactly the set's elements, and is as long as the set |
| Helpers.SortedList | matter_helpers.py:52 | the selection loop produces `SortedElements` of the set |
| Helpers.AscendingUnique | matter_helpers.py:52 | two strictly ascending sequences with the same elements are equal, so the sorted order is unique |
| Helpers.Extract | matter_helpers.py:22-61 | the records are strictly ascending by endpoint; each carries the node id, the node's availability (false when absent) and the endpoint's on/off value; an endpoint has a record if and only if it was collected |
| Helpers.CollectOnOff | matter_helpers.py:32-49 | the first loop collects exactly `OnOffEndpoints` of the items, and its dict maps each endpoint to exactly the known `OnOffValue` |
| Helpers.BuildRecords | matter_helpers.py:51-61 | the second loop builds one record per endpoint, in the given order |
| Helpers.ExtractOnOffEndpointsFromNode | matter_helpers.py:22-61 | the imperative extraction returns exactly `Extract(node)` |
| Helpers.IrrelevantItemIgnored | matter_helpers.py:37-43 | inserting a malformed key or a key of another cluster anywhere in the attributes changes no record |
| Helpers.ExtractExample | matter_helpers.py:22-61 | `{"1/6/0": true, "1/6/1": false, "2/3/0": true}` gives one record, endpoint 1 with on/off true |
| Topics.TopicState | topics.py:6-8 | `topic_state`: the levels `matter`, node id, endpoint, `state`; its text, levels and injectivity are stated by `Topics.TopicStateText`, `Topics.TopicStateLevels` and `Topics.TopicStateInjective` |
| Topics.TopicAvailable | topics.py:11-13 | `topic_available`: the levels `matter`, node id, endpoint, `available`; stated by `Topics.TopicAvailableText`, `Topics.TopicAvailableLevels` and `Topics.TopicAvailableInjective` |
| Topics.HaDiscoveryTopic | topics.py:16-18 | `ha_discovery_topic`: `homeassistant`, `light`, `matter_<node>_<endpoint>`, `config`; stated by `Topics.HaDiscoveryTopicText`, `Topics.HaDiscoveryTopicLevels` and `Topics.HaDiscoveryTopicInjective` |
| Topics.CommandTopic | matter2mqtt_app.py:153 | the `command_topic` announced in discovery, `matter/<node>/<endpoint>/set`; stated by `Topics.CommandTopicLevels`, `Topics.CommandTopicNotRetained` and `Bridge.CommandTopicRoundTrip` |
| Topics.TopicStateText | topics.py:6-8 | the state topic is `"matter/" + n + "/" + e + "/state"` |
| Topics.TopicAvailableText | topics.py:11-13 | the availability topic is `"matter/" + n + "/" + e + "/available"` |
| Topics.HaDiscoveryTopicText | topics.py:16-18 | the discovery topic is `"homeassistant/light/matter_" + n + "_" + e + "/config"` |
| Topics.TopicStateLevels | topics.py:6-8 | the state topic splits into exactly the four levels `matter`, `n`, `e`, `state` |
| Topics.CommandTopicLevels | matter2mqtt_app.py:153 | the command topic announced in discovery splits into `matter`, `n`, `e`, `set` |
| Topics.TopicStateInjective | topics.py:6-8 | distinct keys have distinct state topics |
| Topics.TopicAvailableInjective | topics.py:11-13 | distinct keys have distinct availability topics |
| Topics.HaDiscoveryTopicInjective | topics.py:16-18 | distinct keys have distinct discovery topics |
| Topics.RetainedTopicsDisjoint | topics.py:6-18 | no state topic is an availability topic, and no discovery topic is either, whatever the keys |
| Topics.CommandTopicNotRetained | matter2mqtt_app.py:153 | the command topic is never one of the three retained topics |
| Bridge.ActionFor | mqtt_bridge.py:80-88 | `ON`, `1` and `TRUE` give `on`; `OFF`, `0` and `FALSE` give `off`; `TOGGLE` and `T` give `toggle`; a result is always one of the three actions |
| Bridge.NormalizePayload | mqtt_bridge.py:70 | the payload stripped of surrounding whitespace and upper-cased; `Bridge.PayloadPaddingIgnored`, `Bridge.PayloadCaseIgnored` and `Bridge.OnSpellings` state what it ignores |
| Bridge.ParseCommandTopic | mqtt_bridge.py:72-78 | a topic is accepted only with exactly four levels `matter`, integer, integer, `set`; `Bridge.AcceptedTopicShape`, `Bridge.MalformedTopicIgnored`, `Bridge.NonIntegerLevelIgnored` and `Bridge.CommandTopicRoundTrip` state both directions |
| Bridge.ParseCommand | mqtt_bridge.py:70-93 | a command is produced exactly when the topic parses and the normalised payload is known, and it carries both |
| Bridge.AcceptedTopicShape | mqtt_bridge.py:72-78 | an accepted topic is literally `matter/<a>/<b>/set` with integer levels `a` and `b` |
| Bridge.MalformedTopicIgnored | mqtt_bridge.py:72-75 | a topic that is not four levels `matter/…/…/set` yields nothing, whatever the payload |
| Bridge.NonIntegerLevelIgnored | mqtt_bridge.py:77-96 | a node or endpoint level that is not an integer yields nothing |
| Bridge.CommandTopicRoundTrip | mqtt_bridge.py:72-78 | the command topic of `(n, e)` parses back to `(n, e)` |
| Bridge.CommandRoundTrip | mqtt_bridge.py:70-93 | a known payload on the command topic of `(n, e)` yields exactly that command |
| Bridge.PayloadPaddingIgnored | mqtt_bridge.py:70 | whitespace around the payload does not matter |
| Bridge.PayloadCaseIgnored | mqtt_bridge.py:70 | the letter case of the payload does not matter |
| Bridge.OnSpellings | mqtt_bridge.py:70-81 | `"on"`, `" On "` and `"ON"` all yield action `on` |
| Bridge.UnknownPayloadIgnored | mqtt_bridge.py:86-88 | `"blorp"` yields nothing on any topic |
| Bridge.CommandQueue.PutNowait | mqtt_bridge.py:93 | one command is appended at the tail of the queue |
| Bridge.CommandQueue.Get | matter2mqtt_app.py:234 | the head is taken and the rest stays in order |
| Bridge.MqttBridge.PublishRetained | mqtt_bridge.py:51-54 | exactly one publication is appended to the retained log |
| Bridge.MqttBridge.OnMessage | mqtt_bridge.py:66-96 | the queue grows by the parsed command when there is one and is otherwise unchanged; earlier entries are untouched |
| Commander.ConnectSpec | matter_commander.py:32-44 | `connect`: without the library it raises and changes nothing; otherwise it opens a session when there is none and sets a client whether or not connecting succeeds; stated by `Commander.FailedConnectKeepsClient`, `Commander.OperationsKeepValid` and `Commander.ConnectSendsNothing` |
| Commander.EnsureConnectedSpec | matter_commander.py:46-57 | `ensure_connected`: connects only when there is no client; stated by `Commander.EnsureConnectedConnectsIffNoClient` and `Commander.EnsureConnectedIdempotent` |
| Commander.CloseSpec | matter_commander.py:59-68 | `close`: disconnects any client, then clears client and session whatever the disconnect did; stated by `Commander.CloseClears` |
| Commander.ReconnectAndRetrySpec | matter_commander.py:101-117 | the reconnect-and-retry path of `set_onoff`; stated by `Commander.ReconnectClearsClientFirst` and `Commander.ReconnectSendsAtMostOnce` |
| Commander.SetOnOffSpec | matter_commander.py:70-117 | `set_onoff`: ensure a client, check the action, send, and on a lost connection reconnect and retry once; stated by `Commander.SetOnOffPaths`, `Commander.InvalidActionSendsNothing` and `Commander.AtMostTwoSends` |
| Commander.CommandFor | matter_commander.py:76-83 | an action has a command object if and only if it is `on`, `off` or `toggle` |
| Commander.ConnectionLostClassification | matter_commander.py:94 | a timeout is never retried; an invalid-state error always is; a not-connected error is retried when its message says "Not connected" |
| Commander.EnsureConnectedConnectsIffNoClient | matter_commander.py:46-57 | `connect` runs, with one client connect, exactly when there is no client and the library is installed; with a client nothing changes |
| Commander.EnsureConnectedIdempotent | matter_commander.py:46-51 | once `ensure_connected` has passed, a second one does nothing |
| Commander.FailedConnectKeepsClient | matter_commander.py:38-44 | a failed connect still leaves the client set, so the next `ensure_connected` does not connect again |
| Commander.CloseClears | matter_commander.py:59-68 | `close` leaves neither client nor session even when the disconnect raises; it raises only then; it sends nothing |
| Commander.OperationsKeepValid | matter_commander.py:32-68 | every operation keeps the client on an open session |
| Commander.InvalidActionSendsNothing | matter_commander.py:76-77 | an action outside on/off/toggle fails with `InvalidAction` once connected, and nothing is sent |
| Commander.SetOnOffPaths | matter_commander.py:70-117 | with a client, the exact call sequence and result of each path: success returns the reply; another failure is raised after one send; a lost connection adds a disconnect, a connect and one retry, and a successful retry returns nothing |
| Commander.ReconnectClearsClientFirst | matter_commander.py:101-117 | for every channel: the old client is disconnected and cleared before `connect` runs; without the library the reconnect fails with no client left; with it a new client on an open session is set whatever `connect` reports, and the command is sent again only after a successful connect |
| Commander.ReconnectSendsAtMostOnce | matter_commander.py:101-117 | the reconnect path sends at most once |
| Commander.AtMostTwoSends | matter_commander.py:70-117 | a `set_onoff` never sends a third time |
| Commander.MatterCommander.constructor | matter_commander.py:26-30 | no client, no session, no calls, so the client-on-a-session invariant `Commander.Valid` holds |
| Commander.MatterCommander.Connect | matter_commander.py:32-44 | the new state and result are `ConnectSpec` of the old state, and the method keeps `Commander.Valid` |
| Commander.MatterCommander.EnsureConnected | matter_commander.py:46-57 | the new state and result are `EnsureConnectedSpec` of the old state, and the method keeps `Commander.Valid` |
| Commander.MatterCommander.Close | matter_commander.py:59-68 | the new state and result are `CloseSpec` of the old state, and the method leaves `Commander.Valid` holding from any state |
| Commander.MatterCommander.ReconnectAndRetry | matter_commander.py:101-117 | the new state and result are `ReconnectAndRetrySpec` of the old state, and the method leaves `Commander.Valid` holding from any state |
| Commander.MatterCommander.SetOnOff | matter_commander.py:70-99 | the new state and result are `SetOnOffSpec` of the old state, and the method keeps `Commander.Valid` |
| App.SyncAvail | matter2mqtt_app.py:210-213 | availability is published and cached when `last_avail` lacks the key or differs; stated through `App.SyncEndpoint` and `App.SyncEndpointPerTopic` |
| App.SyncState | matter2mqtt_app.py:219-222 | a known state is published and cached when `last_state` lacks the key or differs; stated through `App.SyncEndpoint` and `App.SyncEndpointPerTopic` |
| App.SyncEndpoint | matter2mqtt_app.py:206-225 | afterwards `last_avail` holds the endpoint's availability and `last_state` its known on/off value, with an unknown value leaving it alone; something is published exactly when the cache did not already agree; at most two messages |
| App.SyncEndpointPerTopic | matter2mqtt_app.py:210-222 | the availability topic is published exactly when `last_avail` lacks the key or differs; the state topic exactly when the on/off value is known and `last_state` lacks the key or differs; nothing but those two publications is ever produced |
| App.SyncAll | matter2mqtt_app.py:206-225 | the second loop, endpoint by endpoint; stated by `App.SyncAllAgrees`, `App.SyncAllQuiet` and `App.SyncAllKeepsMatch` |
| App.Refresh | matter2mqtt_app.py:198-225 | nothing when there are no endpoints, otherwise every discovery message first, then availability and state; stated by `App.RefreshEmpty`, `App.DiscoveryFirst`, `App.RefreshKeepsMatch` and `App.RefreshPublishesSnapshot` |
| App.SnapshotEndpoints | matter2mqtt_app.py:194-196 | the endpoints of every node, node by node; stated by `App.SnapshotKeysUnique` and `App.Matter2Mqtt.CollectEndpoints` |
| App.DiscoveryLogCovers | matter2mqtt_app.py:202-203 | one discovery publication per endpoint, in endpoint order |
| App.RefreshEmpty | matter2mqtt_app.py:198-200 | with no OnOff endpoint in the snapshot, refresh publishes nothing and changes neither cache |
| App.DiscoveryFirst | matter2mqtt_app.py:202-225 | every endpoint gets its discovery message on every non-empty refresh, and all of them come before any availability or state message |
| App.SyncAllAgrees | matter2mqtt_app.py:206-225 | after the second loop the caches hold what every endpoint reported |
| App.SyncAllQuiet | matter2mqtt_app.py:206-225 | when the caches already agree with every endpoint, the second loop publishes nothing |
| App.SecondRefreshOnlyDiscovery | matter2mqtt_app.py:202-225 | refreshing twice with the same endpoints: the second run publishes only the discovery messages |
| App.SnapshotRefreshSettles | matter2mqtt_app.py:190-225 | the same for a snapshot of nodes with distinct ids |
| App.SnapshotKeysUnique | matter2mqtt_app.py:194-196 | nodes with distinct ids give endpoints with distinct `(node_id, endpoint)` keys |
| App.PublishAvailKeepsMatch | matter2mqtt_app.py:210-213 | publishing an availability and caching it keeps every cached value equal to the last retained payload |
| App.PublishStateKeepsMatch | matter2mqtt_app.py:219-222 | the same for a state |
| App.SyncEndpointKeepsMatch | matter2mqtt_app.py:206-225 | one endpoint's step keeps the caches equal to the last retained payloads |
| App.DiscoveryKeepsMatch | matter2mqtt_app.py:202-203 | discovery messages never land on an availability or state topic |
| App.RefreshKeepsMatch | matter2mqtt_app.py:190-225 | a refresh keeps every cached value equal to the payload last published for it |
| App.RefreshPublishesSnapshot | matter2mqtt_app.py:190-225 | when the caches match the log, a refresh leaves each endpoint's retained availability, and its known state, equal to what the snapshot reports |
| App.ExitRuleSecondTestRedundant | matter2mqtt_app.py:181-187 | the exit test is `!running` or the message containing "closing transport"; the second substring test adds nothing |
| App.RunRounds | matter2mqtt_app.py:172-188 | the periodic task over a sequence of wake-ups: the publications, the caches and the rounds handled; stated by `App.RunRoundsHandled` and `App.RunRoundsKeepsMatch` |
| App.RunRoundsHandled | matter2mqtt_app.py:172-188 | while running, the periodic refresh handles every wake-up up to and including the first closing-transport error, and stops there |
| App.RunRoundsKeepsMatch | matter2mqtt_app.py:172-188 | the periodic task keeps the caches equal to the last retained payloads |
| App.OptimisticLog | matter2mqtt_app.py:237-241 | the optimistic publication is the state `ON` for `on`, `OFF` for `off`, and nothing for `toggle` |
| App.OptimisticCache | matter2mqtt_app.py:237-241 | the corrected step records that state in `last_state` and changes nothing else |
| App.SendAndConfirm | matter2mqtt_app.py:243-258 | without a commander client the command fails at once; otherwise it is sent, and only a successful send refreshes the snapshot; every failure is swallowed; stated by `App.SendAndConfirmKeepsMatch` |
| App.ConsumeAsWritten | matter2mqtt_app.py:237-252 | the consumer step as written: the optimistic publication, then `App.SendAndConfirm` with `last_state` untouched; `App.ConsumeAsWrittenLeavesStaleState` shows its defect |
| App.Consume | matter2mqtt_app.py:231-258 | the corrected consumer step, which also records the optimistic state in `last_state`; stated by `App.ConsumeKeepsMatch` and `App.ConsumeThenRefreshTruthful` |
| App.ConsumeKeepsMatch | matter2mqtt_app.py:231-258 | the corrected consumer step keeps every cached value equal to the last retained payload, whatever the command and the channel did |
| App.ConsumeThenRefreshTruthful | matter2mqtt_app.py:231-258 | after the corrected step, the next refresh leaves every retained state equal to what the device reports |
| App.ConsumeAsWrittenLeavesStaleState | matter2mqtt_app.py:237-252 | as written, a failed `off` on a device that stays on leaves `OFF` retained after the next refresh, and the cache no longer matches the log |
| App.QueuedActionsAccepted | matter_commander.py:76-77 | every action the bridge queues is one `set_onoff` accepts |
| App.StopSpec | matter2mqtt_app.py:116-146 | after `stop` the application is not running; a first call attempts to close the MQTT client, the WebSocket and the commander in that order and leaves the commander with neither client nor session; a later call changes nothing |
| App.StopIdempotent | matter2mqtt_app.py:118-119 | stopping twice is stopping once |
| App.Matter2Mqtt.constructor | matter2mqtt_app.py:75-87 | empty queue, empty caches, no publications, running |
| App.Matter2Mqtt.PublishHaDiscovery | matter2mqtt_app.py:148-170 | one retained discovery publication on the endpoint's discovery topic |
| App.Matter2Mqtt.CollectEndpoints | matter2mqtt_app.py:194-196 | the endpoints of every node, node by node, are exactly `SnapshotEndpoints` |
| App.Matter2Mqtt.PublishAllDiscovery | matter2mqtt_app.py:202-203 | the log grows by `DiscoveryLog` of the endpoints |
| App.Matter2Mqtt.SyncEndpoints | matter2mqtt_app.py:206-225 | the log and caches change exactly as `SyncAll` says |
| App.Matter2Mqtt.SyncOne | matter2mqtt_app.py:207-225 | the log and caches change exactly as `SyncEndpoint` says |
| App.Matter2Mqtt.PublishEndpoints | matter2mqtt_app.py:198-225 | the log and caches change exactly as `Refresh` says |
| App.Matter2Mqtt.RefreshSnapshot | matter2mqtt_app.py:190-229 | a failed fetch changes nothing; otherwise the log and caches change as `Refresh` of the extracted endpoints says |
| App.Matter2Mqtt.ConsumeOne | matter2mqtt_app.py:231-258 | the head of the queue is removed, and the log, caches and channel change as `ConsumeAsWritten` says |
| App.Matter2Mqtt.PeriodicRefresh | matter2mqtt_app.py:172-188 | the log, the caches and the number of wake-ups handled are as `RunRounds` says |
| App.Matter2Mqtt.Stop | matter2mqtt_app.py:116-146 | the running flag, close attempts and commander state change as `StopSpec` says; the caches are untouched |

## Left out

- Configuration loading (matter2mqtt_app.py:25-69) is file I/O and YAML parsing.
- matter_ws.py, the WebSocket client, is not part of this model. What `snapshot_nodes` returns is an input: `Some(nodes)`, or `None` when it raised. In the periodic task it is a `Round`.
- The paho client is left out: its network loop, `connect`, `close` and subscription in mqtt_bridge.py. `publish_retained` is an append to a log, and `call_soon_threadsafe` is a plain append to the queue.
- matter2mqtt.py, the signal handling and asyncio runner, is not part of this model.
- asyncio concurrency is left out: task creation, `gather`, cancellation in `stop`, the lock, `sleep` and `wait_for`. Every operation is sequential; a timeout is the oracle outcome `Timeout`. `stop` therefore only records the three close attempts in order, each made whatever the others raised, and cannot interleave with the loops.
- The Home Assistant discovery JSON body (matter2mqtt_app.py:150-164) is the opaque payload `DiscoveryConfig(node, endpoint)`; only its topic is modelled.
- Logging is left out, including the final "Discovered OnOff endpoints" line of `refresh_snapshot`.
- `MatterClient` and `Clusters` are an oracle. `connect`, the first send and the retry each take their outcome from it; the exception types are reduced to `NotConnected`, `InvalidState`, `Timeout` and `Other(typeName, message)`.
- Text.ParseInt: Python's `int()` also accepts surrounding whitespace, `_` between digits and non-ASCII decimal digits; the model accepts only an optional sign and ASCII decimal digits.
- Text.Upper: only ASCII letters are upper-cased; Python's full Unicode case mapping is not modelled.
- Text.IsSpace covers the characters Python's `str.isspace()` accepts, as a fixed list of code points.
- The MQTT payload bytes and their UTF-8 decoding with replacement are not modelled; the payload is a string.
- A node's `node_id` is taken to be an integer already. `int(node.get("node_id"))` failing is not modelled.
- A session closed from outside, the `session.closed` test in matter_commander.py:36 and matter_commander.py:66, is not modelled. A session is open from the first connect until `close`.
- An error from the session's own `close()` is not modelled.
- Commander.MatterCommander.ReconnectAndRetry: the outcome of the old client's disconnect is not an input, because the source swallows it either way.
- The check at matter_commander.py:73-74 is modelled, but no path reaches it: `connect` sets the client before it can fail, so `ensure_connected` never returns without one.
- Attribute values that are JSON lists and objects are reduced to their size, which is all that truthiness looks at.

## Findings

| source | as written | input that shows it | evidently intended | confidence | as-written member | corrected member |
|---|---|---|---|---|---|---|
| matter2mqtt_app.py:237-241 | the consumer publishes the desired state optimistically but does not record it in `last_state` | `ON` is retained and cached for `(n, e)`. A command `off` arrives while the commander has no client, or the send fails. `OFF` is published. The next refresh finds the device still on, equal to the cached `true`, and publishes nothing. `OFF` stays retained though the device is on | the optimistic publication also updates `last_state`, so that the confirming refresh republishes the real state | not executed; medium | App.ConsumeAsWrittenLeavesStaleState | App.ConsumeThenRefreshTruthful |

The class method `App.Matter2Mqtt.ConsumeOne` models the step as written (`App.ConsumeAsWritten`). The corrected step is the function `App.Consume`, which also applies `App.OptimisticCache`. `App.ConsumeKeepsMatch` proves that it preserves `App.CacheMatchesLog`.
