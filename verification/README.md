# DecentChat: models and proofs

This project models the parts of DecentChat whose behaviour is hardest to see from one function at a
time, in Dafny 4.11, and proves what they promise. `dafny verify dfyconfig.toml` checks everything.

- **Peer connections** (`PeerLink`, `Glare`, `PeerHistory`, `PeerTransport`). `Glare` is a protocol of
  two endpoints that dial each other over a network with offers, opens and close notices in flight. The
  network may deliver these in any order, with two assumptions: a channel comes up only while both ends
  have set the connection up and neither has closed it (the `open` event may reach an end later, even
  after the far end has closed), and a closed end is reported to the far end after the offer of that
  connection, which itself may get lost once its dialer has closed. `PeerTransport` is one endpoint as a
  class with the connection table, heartbeats, retry deletes, send failures, reconnect timers and the
  failure quarantine; each handler and each stretch of `connect` between two awaits is one method, and
  ghost histories record callbacks, closed connections, heartbeat events, failed attempts and armed timers. Both say what an
  event does to the entry of a peer with the same functions of `PeerLink` (`AfterSetup`, `AfterOpen`,
  `AfterClose`), so the protocol's endpoints and the class agree on it. Callbacks that call back into the
  transport run as further events. Mostly a callback is the last thing its handler does to the table; where
  a close is reported at once in the middle of `_setupConnection` or `disconnect`, `onDisconnect` is assumed
  not to re-enter the transport.
- **WebSocket framing** (`WsFrame`, `WsDecoder`). Sections 5.2 and 5.3 of RFC 6455 and the buffered
  decode loop. Bytes are numbers below 256, so `b & 0x0F` is `b % 16`, `b & 0x7F` is `b % 128` and a set
  high bit is `b >= 128`; `Number` of a 64-bit length is rounded as a double.
- **Reply chunker** (`Text`, `ReplyChunker`). Greedy packing of words into chunks.
- **Company compiler** (`Manifest`, `TemplateCompiler`, `ManagedList`, `OpenClawConfig`). Template to
  manifest with its reference check, and agent plan to host config with its installation check.
  `slugify` is a parameter.
- **Company routing** (`Router`, `ThreadRouting`). Who answers a message, and thread assignment over a
  scenario. The regular expressions are taken as done: a message carries its tokens and fields.
  `toLowerCase` is a parameter.
- **Pre-keys and key pairs** (`PreKeys`, `DhKeyPool`). Asynchronous generators, suspended at their
  awaits, within one key generation.
- **Replicated and cached state** (`Reactions`, `SyncDeduper`, `BootstrapOnce`).

Some promises hold only under a condition, and then the exact condition is proved, or a concrete run shows
what goes wrong without it:

- Endpoint agreement survives a retry delete exactly when the connection of the dropped entry is closed
  here, or was closed at the far end before it ever came up (`Glare.RetryDeleteIsSafeIff`,
  `Glare.ForgettingBreaksAgreement`).
- Once nothing is in flight the endpoints hold the same connection or both none, unless one of them has
  dropped a connected entry without closing it, as a failing send does (`Glare.HoldingsAgree`,
  `Glare.DropLeavesFarEnd`).
- A chunk can exceed the limit exactly when the body is too long and holds white space only
  (`ReplyChunker.ChunksAreFaithful`).
- A materialized config can fail the installation check when two routes are filed under one text, as `a:b`
  with account `c` and `a` with account `b:c` (`OpenClawConfig.MaterializedPassesIff`,
  `OpenClawConfig.CollidingRoutesFail`).
- A bootstrap task that throws when it is called, instead of returning a promise, leaves its key stuck for
  good; an async task that fails, however early, returns a rejected promise and leaves its key retryable
  (`BootstrapOnce.Bootstrap.RetryableIff`, `BootstrapOnce.SynchronousThrowIsFinal`).
- A thread assignee is compared by its trimmed id, so an employee answers follow-ups as the assignee of
  its own thread only if its id has no white space around it (`ThreadRouting.FollowUpInScenario`,
  `ThreadRouting.UntrimmedAssigneeStaysSilent`).
- After a Close frame, what is left in the buffer is read at the next data event, so how the bytes were cut
  shows exactly when a complete frame follows the first Close (`WsDecoder.ChunkingIsIrrelevantIff`,
  `WsDecoder.ChunkingMattersAfterClose`).

## Model

| member | source | states |
|---|---|---|
| PeerLink.LessIsTotal | decent-transport-webrtc/src/PeerTransport.ts:1298 | of two distinct ids exactly one is the lower, so both ends of a glare apply the tie-break the same way |
| PeerLink.NewcomerWinsIff | decent-transport-webrtc/src/PeerTransport.ts:1294-1321 | between two connecting ones the newcomer wins iff its dialer has the lower id; of two in the same direction the first one stays |
| Glare.EndpointsAgree | decent-transport-webrtc/src/PeerTransport.ts:1282-1408 | in every interleaving, with safe retry deletes and dropped connected entries among the steps, the two endpoints are never connected on different connections, and when no offer or close notice is in flight they hold the same connection or both none, or one has dropped what the other holds |
| Glare.HoldingsAgree | decent-transport-webrtc/src/PeerTransport.ts:1282-1408 | while no connected entry is dropped without being closed, both hold the same connection or both none whenever nothing is in flight |
| Glare.DropLeavesFarEnd | decent-transport-webrtc/src/PeerTransport.ts:401-409 | after a failing send the other end can stay connected on its own with nothing in flight |
| Glare.EntriesAreHeld | decent-transport-webrtc/src/PeerTransport.ts:1256-1260 | in runs without dial timeouts every table entry is of a connection that is not closed here, so agreement is about the entries themselves |
| Glare.LowerIdWinsGlare | decent-transport-webrtc/src/PeerTransport.ts:1294-1331 | if the lower id dials before anything comes up and does not give up, nobody disconnects or drops a connected entry and retry deletes are safe, its dial stays its entry, the other end holds it from the moment its offer arrives, in any order of offers, and nobody gets connected on anything else |
| Glare.LowerDialMakesWay | decent-transport-webrtc/src/PeerTransport.ts:1282-1331 | when a connection is set up a connected entry stays, and a connecting one makes way iff the new connection was dialed by the lower id and it was not; exactly the loser is closed |
| Glare.RetryDeleteIsSafeIff | decent-transport-webrtc/src/PeerTransport.ts:358-371 | a retry delete is safe iff the dropped connection is closed here or dead: after a safe one the endpoints agree however the run goes on, after any other they can get connected on two different connections |
| Glare.ForgettingBreaksAgreement | decent-transport-webrtc/src/PeerTransport.ts:361-370 | an unsafe delete does occur at either end: forgetting an inbound connection that is about to come up |
| PeerTransport.Transport.SetupConnection | decent-transport-webrtc/src/PeerTransport.ts:1282-1357 | who stays: a connected entry, the first of two in the same direction, and else the one dialed by the lower id; the newcomer that is turned away is closed and changes nothing, and one that takes over closes what it displaces and is the entry with its handlers attached |
| PeerTransport.Transport.TurnsAwayIff | decent-transport-webrtc/src/PeerTransport.ts:1286-1321 | the same rule for the decision alone, including an endpoint without an id |
| PeerTransport.Transport.MarkConnected | decent-transport-webrtc/src/PeerTransport.ts:1333-1351 | the first open of a connection whose peer is not connected connects it and calls `onConnect` once; one that lost the race is closed; otherwise nothing changes |
| PeerTransport.Transport.OnClose | decent-transport-webrtc/src/PeerTransport.ts:1394-1408 | the close of the connection in use removes the entry, calls `onDisconnect`, connected or not, ends the heartbeat and arms a reconnect; any other close changes nothing |
| PeerTransport.Transport.OnError | decent-transport-webrtc/src/PeerTransport.ts:1410-1426 | an error removes the entry and calls `onDisconnect` only if the peer was connected |
| PeerTransport.Transport.Send | decent-transport-webrtc/src/PeerTransport.ts:397-431 | a send is done iff the peer is connected and the channel takes it; a failing send disconnects the peer |
| PeerTransport.Transport.Disconnect | decent-transport-webrtc/src/PeerTransport.ts:383-395 | the peer is dropped, blocked from reconnecting and cleared of failures; `onDisconnect` is called once, or twice if the close event is emitted at once |
| PeerTransport.Transport.BeginConnect | decent-transport-webrtc/src/PeerTransport.ts:295-311 | a connect is refused iff the peer is quarantined, and starts iff it is not, there is a signaling server, and there is neither an entry nor another attempt |
| PeerTransport.Transport.RetryDelete | decent-transport-webrtc/src/PeerTransport.ts:358-371 | the retry loop stops iff the peer is connected and otherwise drops its entry |
| PeerTransport.Transport.EndConnect | decent-transport-webrtc/src/PeerTransport.ts:331-380 | a success clears the peer's failures, a counted failure adds one, and the attempt is over |
| PeerTransport.Transport.OnData | decent-transport-webrtc/src/PeerTransport.ts:1359-1377 | a payload counts only on the connection in use: it is a sign of life, the pong that answers the pending ping clears its timeout, and a ping whose answer cannot be sent costs a connected peer its entry |
| PeerTransport.Transport.HandlePong | decent-transport-webrtc/src/PeerTransport.ts:653-662 | only the pong that answers the pending ping clears it and its timeout |
| PeerTransport.Transport.SendPing | decent-transport-webrtc/src/PeerTransport.ts:634-651 | a ping that is sent arms one pong timeout; one that is not disconnects the peer and leaves none |
| PeerTransport.Transport.PongTimeoutFires | decent-transport-webrtc/src/PeerTransport.ts:664-699 | a recovery follows iff at least two timeouts are missed and 30 s have passed since the last recovery of the session (or since time 0); without an ICE restart it closes the connection |
| PeerTransport.Transport.StopHeartbeat | decent-transport-webrtc/src/PeerTransport.ts:620-632 | stopping ends the peer's heartbeat session: no timer, no timeout, counts start over |
| PeerTransport.Transport.SetHeartbeatEnabled | decent-transport-webrtc/src/PeerTransport.ts:592-607 | switching heartbeats on or off re-establishes which peers have timers |
| PeerTransport.Transport.ScheduleReconnect | decent-transport-webrtc/src/PeerTransport.ts:523-554 | a timer is armed iff reconnects are on, the peer was not disconnected by hand and none is armed; its delay is the back-off table's entry for the attempts so far or, when the quarantine in force ends later, exactly reaches that end; it lies between 5 s and 30 min |
| PeerTransport.Transport.ReconnectFires | decent-transport-webrtc/src/PeerTransport.ts:536-542 | the timer dials iff the peer is neither disconnected by hand nor in the table, and counts the attempt |
| PeerTransport.Transport.NotePeerConnectFailure | decent-transport-webrtc/src/PeerTransport.ts:566-581 | after `n` counted failures the stored count is `n mod 2`, the level `n div 2`, and the quarantine ends one window of that level after the last even failure |
| PeerTransport.Transport.ClearPeerConnectFailure | decent-transport-webrtc/src/PeerTransport.ts:583-587 | a success or disconnect starts the failure count, level and quarantine over |
| PeerTransport.Transport.TimersAreOfConnectedPeers | decent-transport-webrtc/src/PeerTransport.ts:592-618 | ping timers exist for exactly the connected peers while heartbeats are enabled, and for none otherwise |
| PeerTransport.Transport.GetConnectedPeers | decent-transport-webrtc/src/PeerTransport.ts:433-437 | exactly the peers whose last callback was `onConnect` |
| PeerTransport.Transport.Perform | decent-transport-webrtc/src/PeerTransport.ts:295-1426 | the connection table after each kind of event; no history is ever cut |
| PeerTransport.Run | decent-transport-webrtc/src/PeerTransport.ts:295-699 | every run of events keeps all of this: callbacks, timers, recoveries, back-off and armed reconnects |
| PeerHistory.DisconnectBetweenConnects | decent-transport-webrtc/src/PeerTransport.ts:1326-1426 | two `onConnect` calls for one peer have an `onDisconnect` for it in between |
| PeerHistory.RecoveryNeedsTwoTimeouts | decent-transport-webrtc/src/PeerTransport.ts:664-671 | before every recovery there are two pong timeouts with no inbound payload since |
| PeerHistory.RecoveriesAreApart | decent-transport-webrtc/src/PeerTransport.ts:673-678 | two recoveries in one heartbeat session are at least 30 s apart |
| PeerHistory.WindowsNeverShrink | decent-transport-webrtc/src/PeerTransport.ts:576-580 | quarantine windows grow with the level, from two minutes up to half an hour |
| PeerHistory.WindowsDouble | decent-transport-webrtc/src/PeerTransport.ts:576-580 | the first window lasts two minutes and each later one twice as long, up to half an hour |
| PeerHistory.QuarantineIsLastWindow | decent-transport-webrtc/src/PeerTransport.ts:566-581 | a peer is quarantined from the last failure that made its count even, for the window of half that count; below two failures it is not |
| WsFrame.CreateWSFrame | decent-transport-webrtc/src/EmbeddedSignaling.ts:360-381 | byte by byte: FIN set and the opcode, no mask, the shortest length form with the most significant byte first (section 5.2 of RFC 6455), and the payload as it is |
| WsFrame.EncodingBytes | decent-transport-webrtc/src/EmbeddedSignaling.ts:364-380 | the same bytes for the specification function |
| WsFrame.ParseWSFrame | decent-transport-webrtc/src/EmbeddedSignaling.ts:383-420 | the parser computes the specification function that the lemmas below are about |
| WsFrame.ParseReads | decent-transport-webrtc/src/EmbeddedSignaling.ts:383-420 | a buffer holds a frame iff all bytes that its header announces are there, and the frame is exactly those bytes, unmasked with key byte `i mod 4` |
| WsFrame.NumberIsNearest | decent-transport-webrtc/src/EmbeddedSignaling.ts:397 | a 64-bit length that a double cannot hold is read as one of the nearest that it can |
| WsFrame.UnmaskInPlace | decent-transport-webrtc/src/EmbeddedSignaling.ts:412-417 | the in-place loop combines every byte with the key byte of its position modulo four |
| WsFrame.RoundTrip | decent-transport-webrtc/src/EmbeddedSignaling.ts:360-420 | parsing a created frame followed by any bytes gives back payload, opcode and exact length, for all three length encodings |
| WsFrame.MaskedBits | decent-transport-webrtc/src/EmbeddedSignaling.ts:414-416 | masking flips exactly the bits set in the key (section 5.3 of RFC 6455) |
| WsFrame.MaskedRoundTrip | decent-transport-webrtc/src/EmbeddedSignaling.ts:401-417 | a frame masked with any four-byte key parses to the unmasked payload |
| WsFrame.EncodingIsShortest | decent-transport-webrtc/src/EmbeddedSignaling.ts:364-378 | no unmasked frame with the same payload is shorter than the one written (section 5.2 of RFC 6455) |
| WsFrame.PrefixIsIncomplete | decent-transport-webrtc/src/EmbeddedSignaling.ts:384-408 | every strict prefix of a frame parses to nothing |
| WsFrame.ParseStable | decent-transport-webrtc/src/EmbeddedSignaling.ts:383-420 | a complete frame parses the same whatever bytes follow |
| WsFrame.EncodingIsPrefixFree | decent-transport-webrtc/src/EmbeddedSignaling.ts:360-381 | a byte stream starts with at most one created frame |
| WsDecoder.SocketReader.OnData | decent-transport-webrtc/src/EmbeddedSignaling.ts:257-285 | one data event drains the buffered bytes: all complete frames up to a Close, and the rest stays |
| WsDecoder.ChunkingIsIrrelevant | decent-transport-webrtc/src/EmbeddedSignaling.ts:255-285 | two ways of cutting a byte stream give the same events up to the first Close, and without one the same events and leftover |
| WsDecoder.ChunkingIsIrrelevantIff | decent-transport-webrtc/src/EmbeddedSignaling.ts:255-285 | all ways of cutting a byte stream give the same events and leftover iff no complete frame follows its first Close |
| WsDecoder.ChunkingMattersAfterClose | decent-transport-webrtc/src/EmbeddedSignaling.ts:266-271 | such a stream: a Close followed by a text frame, which is reported only if it comes in a later data event |
| WsDecoder.SentIsReceived | decent-transport-webrtc/src/EmbeddedSignaling.ts:255-285 | any frames without a Close, masked or not and cut anyhow, are reported in order with nothing left over: texts and binaries as messages, each ping by an unmasked pong with its payload, other frames not at all |
| WsDecoder.CloseIsReceived | decent-transport-webrtc/src/EmbeddedSignaling.ts:266-271 | a Close behind such frames is reported once, right after them |
| Text.WordsAreTheText | decent-hermes/src/bridge-app.ts:37 | the words are the maximal runs without white space, in order |
| ReplyChunker.SplitReplyIntoChunks | decent-hermes/src/bridge-app.ts:34-72 | a body that fits or has nothing visible comes back as it is; a longer one is laid out greedily; all chunks fit iff the body fits or has a visible character, and they keep the visible text |
| ReplyChunker.ChunksAreLaidOut | decent-hermes/src/bridge-app.ts:44-70 | the chunks of a longer body are its words in order: runs joined by single blanks, each as long as fits, and words that are too long cut into full pieces |
| ReplyChunker.ChunksAreFaithful | decent-hermes/src/bridge-app.ts:34-72 | chunks fit exactly under that condition, and the visible characters come out once and in order |
| ReplyChunker.ChunksAreOptimal | decent-hermes/src/bridge-app.ts:55-70 | when no word is too long, no grouping of the consecutive words into fitting chunks has fewer chunks |
| ReplyChunker.ChunksAreGrouping | decent-hermes/src/bridge-app.ts:55-70 | the chunks of a longer body are such a grouping themselves |
| ReplyChunker.CutWord | decent-hermes/src/bridge-app.ts:49-51 | the inner loop cuts a long word into consecutive pieces |
| Manifest.AssertUniqueIds | decent-company-sim/src/manifest.ts:66-74 | the check passes iff no id occurs twice |
| Manifest.ValidateManifestReferences | decent-company-sim/src/manifest.ts:76-107 | the validator passes iff ids are unique and every team, manager and channel reference resolves |
| TemplateCompiler.CollectUnique | decent-company-sim/src/template-compiler.ts:30-40 | every non-blank value once, trimmed |
| TemplateCompiler.UniqueInOrder | decent-company-sim/src/template-compiler.ts:30-40 | in the order in which the values first occur |
| TemplateCompiler.ChooseRoles | decent-company-sim/src/template-compiler.ts:117-143 | a role is selected iff it is added, or enabled by default and not removed |
| TemplateCompiler.SelectedInOrder | decent-company-sim/src/template-compiler.ts:138 | the selected roles keep the order of the template |
| TemplateCompiler.SelectFailsIff | decent-company-sim/src/template-compiler.ts:104-142 | selection fails iff an id to remove or to add is unknown, and then reports all such ids, or nothing is selected |
| TemplateCompiler.CompiledManifestIs | decent-company-sim/src/template-compiler.ts:165-271 | the compiled manifest: ids from slugs, overrides before role settings, one team per team id with its first member that has no manager inside as manager, and all channels once |
| TemplateCompiler.CompileFailsIff | decent-company-sim/src/template-compiler.ts:165-229 | there is no manifest iff the selection fails, the id is empty, or a selected role lacks its manager |
| TemplateCompiler.CompiledResolvesIff | decent-company-sim/src/template-compiler.ts:165-271 | a compiled manifest passes the reference check iff the selected roles have distinct slugs |
| TemplateCompiler.InjectiveSlugsResolve | decent-company-sim/src/template-compiler.ts:181-184 | unique role ids and a slug that keeps the selected ones apart are enough |
| TemplateCompiler.AllManagedMeansCycle | decent-company-sim/src/template-compiler.ts:245-251 | if every member of a team is managed inside it, the manager links have a cycle |
| TemplateCompiler.TeamManagerIsOnTop | decent-company-sim/src/template-compiler.ts:248-251 | without a cycle the chosen manager has no manager inside the team, so the fallback is never reached |
| ManagedList.RefreshKeepsRest | decent-company-sim/src/openclaw-config.ts:99-107 | a refreshed entry says what the plan says and keeps every other field |
| ManagedList.UpsertAllIs | decent-company-sim/src/openclaw-config.ts:93-118 | the installed list: behind the old entries a blank one for each plan; of those that one plan manages the first stays in place, and the last plan for it decides what it says |
| OpenClawConfig.FindManagedEntryIndexes | decent-company-sim/src/openclaw-config.ts:12-23 | the ascending positions of exactly the managed entries |
| OpenClawConfig.RemoveIndexes | decent-company-sim/src/openclaw-config.ts:25-31 | splicing from the back keeps exactly the entries at other positions |
| OpenClawConfig.InstallEntry | decent-company-sim/src/openclaw-config.ts:93-118 | one round: the first managed entry is refreshed in place, others removed, a missing one appended |
| OpenClawConfig.PlanRoutes | decent-company-sim/src/openclaw-config.ts:129-145 | the nested loops file the routes, or find a conflict |
| OpenClawConfig.TableFacts | decent-company-sim/src/openclaw-config.ts:129-145 | there is no conflict iff routes with one key name one agent, and then the table holds the last route of each key |
| OpenClawConfig.TableKeysGrow | decent-company-sim/src/openclaw-config.ts:129-145 | keys keep the order in which they were first filed |
| OpenClawConfig.LastOfKeyIsFiled | decent-company-sim/src/openclaw-config.ts:140-144 | a binding behind which no other one has its text is the route that is filed |
| OpenClawConfig.EnsureManifestAccountsConfigured | decent-company-sim/src/openclaw-config.ts:33-56 | the missing accounts are exactly the planned ones that are not configured |
| OpenClawConfig.MaterializeCompanyOpenClawConfig | decent-company-sim/src/openclaw-config.ts:76-187 | the imperative compiler computes the specification that the lemmas below are about |
| OpenClawConfig.MaterializeFailsIff | decent-company-sim/src/openclaw-config.ts:33-56 | it fails iff accounts are not configured, all of which are reported, or else two bindings with one text name different agents |
| OpenClawConfig.MaterializedLists | decent-company-sim/src/openclaw-config.ts:93-184 | both lists of the result as a whole |
| OpenClawConfig.AgentIsInstalled | decent-company-sim/src/openclaw-config.ts:93-118 | the one entry with a planned id has the workspace of the last plan with that id and otherwise says what the first old entry said |
| OpenClawConfig.RouteIsInstalled | decent-company-sim/src/openclaw-config.ts:147-182 | the one route for a channel and account names the agent of the last binding with its text and otherwise says what the first old one said |
| OpenClawConfig.MaterializeInstalls | decent-company-sim/src/openclaw-config.ts:93-184 | each planned agent and route is there once, unmanaged entries survive in order, and the rest of the config and of its `agents` record is untouched |
| OpenClawConfig.MaterializeTwice | decent-company-sim/src/openclaw-config.ts:76-187 | materializing twice equals materializing once |
| OpenClawConfig.MaterializedPassesIff | decent-company-sim/src/bootstrap.ts:58-126 | a materialized config passes the installation check iff no agent id is blank and every route is the last under its key or bound already |
| OpenClawConfig.ColonFreeIsInstallable | decent-company-sim/src/openclaw-config.ts:132 | channel names without a colon make the route keys unambiguous |
| OpenClawConfig.DefaultBindingsPass | decent-company-sim/src/agent-topology.ts:60-75 | plans with default bindings and non-blank agent ids always pass once materialized |
| OpenClawConfig.BindingPlansAre | decent-company-sim/src/agent-topology.ts:60-75 | one plan per binding, with the account of the employee where none is given |
| OpenClawConfig.CollidingRoutesFail | decent-company-sim/src/openclaw-config.ts:132-143 | two routes under one key are materialized without an error and then fail the check |
| Router.BuildEmployeeMentionTokens | decent-company-sim/src/participation.ts:14-32 | the set of normalised names and name pieces of an employee |
| Router.TokensAre | decent-company-sim/src/participation.ts:14-32 | an employee goes by its alias, id, account and title, each as a whole and word by word, trimmed and in lower case |
| Router.ElectionOutcome | decent-company-sim/src/router.ts:143-163 | for every manifest, a yielding response remains exactly for those with such a base decision and the winner's id, and no other decision changes |
| Router.OneResponder | decent-company-sim/src/router.ts:143-163 | with unique ids at most one employee gives a yielding response, the first in manifest order, and one does iff some base decision is of that kind |
| Router.DecisionsAre | decent-company-sim/src/router.ts:39-163 | with unique ids exactly these employees answer, each for its reason: everyone a direct message, everyone it names, the assignee, whoever sums up, and the first of those that offer |
| Router.SilencesAre | decent-company-sim/src/router.ts:80-139 | the reason with which every other employee stays silent |
| Router.ProactiveOwnerAnswers | decent-company-sim/src/router.ts:135-163 | a channel message for nobody in particular gets exactly one offered answer when a proactive employee owns the channel |
| Router.WithoutCompanyAnswers | decent-company-sim/src/router.ts:41-44 | outside a company simulation everything is answered |
| ThreadRouting.ByTokenFacts | decent-company-sim/src/thread-routing-state.ts:9-18 | a token resolves to the first employee that goes by it |
| ThreadRouting.ResolvedIff | decent-company-sim/src/thread-routing-state.ts:20-43 | a task assigns its thread to the first employee that goes by its owner, a handoff to the one that goes by its target, and nothing else assigns it |
| ThreadRouting.AssignedResponds | decent-company-sim/src/thread-routing-state.ts:20-43 | the employee that a message assigns responds to that message |
| ThreadRouting.InForceIsLatest | decent-company-sim/src/communication-bench.ts:90-110 | a thread's assignee is the one of its latest earlier message that resolves |
| ThreadRouting.EvaluateScenario | decent-company-sim/src/communication-bench.ts:88-110 | the walk with its map of thread states decides every step with the assignment in force |
| ThreadRouting.StepIsDecided | decent-company-sim/src/communication-bench.ts:90-105 | every employee decides a step by the step itself and the id of the employee to whom the thread was last assigned, if it was |
| ThreadRouting.FollowUpInScenario | decent-company-sim/src/communication-bench.ts:90-110 | over every scenario, a plain follow-up in an assigned thread is answered by a silent-unless-routed employee or a specialist of the channel iff it is the employee that the latest resolving message assigned, given unique ids and an assigned id without white space around it; the assigned employee answers as the assignee iff its id has none |
| ThreadRouting.UntrimmedAssigneeStaysSilent | decent-company-sim/src/router.ts:61-62 | an employee with a space in front of its id is assigned a thread and then stays silent in it |
| PreKeys.Store.Load | decent-client-core/src/messages/MessageProtocol.ts:727-752 | a reload sets the counter above every restored id and at least to the saved counter, and no higher than needed |
| PreKeys.Store.StartsBackground | decent-client-core/src/messages/MessageProtocol.ts:881-885 | at most one background generator is scheduled |
| PreKeys.Store.StartsInline | decent-client-core/src/messages/MessageProtocol.ts:856-858 | an inline generator with something to do takes the next id at once |
| PreKeys.Store.Resumes | decent-client-core/src/messages/MessageProtocol.ts:856-901 | after its await a generator stores exactly the id it holds and goes on to its next await, or ends after its last key |
| PreKeys.Store.Run | decent-client-core/src/messages/MessageProtocol.ts:832-910 | in any interleaving ids are issued once, stay below the counter, and a removed id never reappears |
| DhKeyPool.Pool.TakePair | decent-client-core/src/messages/MessageProtocol.ts:151-163 | the oldest pooled pair is handed out, or the caller waits for its own; a low pool is being refilled |
| DhKeyPool.Pool.FillerGoesOn | decent-client-core/src/messages/MessageProtocol.ts:174-185 | a filler adds one new pair per round and stops exactly at the target |
| DhKeyPool.Pool.Run | decent-client-core/src/messages/MessageProtocol.ts:151-188 | the pool never exceeds four pairs, has at most one filler, and hands out each pair at most once |
| Reactions.Manager.AddReaction | decent-client-web/src/ui/ReactionManager.ts:49-69 | adds the reaction unless it is there |
| Reactions.Manager.RemoveReaction | decent-client-web/src/ui/ReactionManager.ts:74-93 | removes the reaction if it is there and keeps no empty list |
| Reactions.Manager.ToggleReaction | decent-client-web/src/ui/ReactionManager.ts:98-107 | flips the one reaction and no other, and returns the event that does the same elsewhere |
| Reactions.Manager.GetReactions | decent-client-web/src/ui/ReactionManager.ts:113-123 | one group per emoji in use with its users in order |
| Reactions.Manager.GetReactionCount | decent-client-web/src/ui/ReactionManager.ts:128-130 | the sum of the group sizes of what `getReactions` returns |
| Reactions.GroupsAddUp | decent-client-web/src/ui/ReactionManager.ts:113-130 | the group sizes sum to the reaction count |
| Reactions.UsersInOrder | decent-client-web/src/ui/ReactionManager.ts:113-123 | a group is the users of its emoji in the order of their reactions |
| Reactions.Replay | decent-client-web/src/ui/ReactionManager.ts:38-44 | a replica holds a reaction iff the last event about it was an add |
| Reactions.LastActionIsLast | decent-client-web/src/ui/ReactionManager.ts:38-44 | that is, iff some event adds it and no later event is about it |
| Reactions.Converge | decent-client-web/src/ui/ReactionManager.ts:38-44 | replicas that saw the same last action for every reaction hold the same reactions |
| SyncDeduper.Deduper.ShouldProcess | decent-client-web/src/app/workspaceStateSyncDeduper.ts:89-102 | the answer and the whole table after one call, pruned only above 2048 entries |
| SyncDeduper.Deduper.Prune | decent-client-web/src/app/workspaceStateSyncDeduper.ts:108-114 | the loop removes exactly the entries older than four cooldowns |
| SyncDeduper.DeduperIsExact | decent-client-web/src/app/workspaceStateSyncDeduper.ts:84-115 | with a clock that does not go back, pruning never changes an answer |
| SyncDeduper.RefusedIffJustAccepted | decent-client-web/src/app/workspaceStateSyncDeduper.ts:89-102 | a call is refused iff the last accepted call for its key had the same fingerprint and was less than the cooldown earlier |
| BootstrapOnce.Bootstrap.Calls | decent-openclaw/src/runtime.ts:27-47 | a call returns at once, joins the run in flight, or starts a run |
| BootstrapOnce.Bootstrap.TaskDone | decent-openclaw/src/runtime.ts:36-43 | a fulfilled promise completes the key, a rejected one frees it for a retry |
| BootstrapOnce.Bootstrap.OncePerKey | decent-openclaw/src/runtime.ts:27-47 | a key has at most one running task and at most one successful run, and callers return only after that success |
| BootstrapOnce.Bootstrap.RetryableIff | decent-openclaw/src/runtime.ts:36-46 | a key without success can be retried iff no run of it is at work and no call of its tasks threw; a rejected promise frees the key |
| BootstrapOnce.Bootstrap.StuckRunHoldsKey | decent-openclaw/src/runtime.ts:36-46 | a run whose task threw when it was called, instead of returning a promise, keeps its key in flight and uncompleted: no later run of the key, and no caller returns |
| BootstrapOnce.SynchronousThrowIsFinal | decent-openclaw/src/runtime.ts:27-47 | when calling the first task of a key throws instead of returning a promise, nothing that happens later runs another task for the key, and all its callers wait for the dead run |
| BootstrapOnce.RunAll | decent-openclaw/src/runtime.ts:27-47 | in every interleaving all runs of a key but the last have failed |

## Left out

- PeerTransport.Run: stops before `destroy()`; network listeners, signaling reconnects, ICE configuration and the per-peer message queues are not modelled, and `connect` is cut at its awaits rather than being one loop, so its back-off pauses and its order over servers do not appear.
- PeerTransport.Transport.Disconnect: stops the heartbeat together with the removal of the entry instead of a few statements earlier; nothing runs in between that could tell.
- Glare.EndpointsAgree: the endpoints are assumed to know their ids.
- Liveness of connecting: after a last failed attempt a connecting entry may stay, so nothing is said about reconnecting in the end.
- WsFrame.RoundTrip: payloads of 2^53 bytes and more are excluded; frames are byte sequences, so the error of `writeBigUInt64BE` beyond 64 bits does not occur.
- WsDecoder.SocketReader.OnData: message payloads are kept as bytes, without the decoding to UTF-8, and the listeners and the socket appear as a list of events.
- The WebSocket upgrade handshake, fragmentation and the signaling messages themselves.
- ReplyChunker.SplitReplyIntoChunks: lengths count characters, so a surrogate pair that is cut in two is not distinguished; a limit below 1, for which the source does not end, is excluded; the streaming of chunks is not modelled.
- TemplateCompiler.CompiledResolvesIff: names, aliases, titles, participation and question answers are not part of the manifest model, since no reference depends on them.
- OpenClawConfig.MaterializedPassesIff: a `null` in the bindings makes the source's check throw and reads as no binding here; workspace paths are given.
- OpenClawConfig.RemoveIndexes: positions are ascending, as its only caller passes them.
- Router.OneResponder: the extraction of mentions, tags and fields by regular expressions, and `describeCompanyRoutingDecision`.
- ThreadRouting.EvaluateScenario: the comparison with expected responders and the scores.
- PreKeys.Store.Run: key material, signed pre-keys, persistence and the lifecycle policy that picks counts and stale ids; a background generator is over when its last key is stored, before its state is saved.
- Double ratchet, session initiation, negentropy and message storage.
- Reactions.Manager.AddReaction: the notification callback, and restoring from a snapshot, which does not remove duplicates.
- SyncDeduper.Deduper.ShouldProcess: fingerprints are opaque values; how they are built from a payload is not modelled.
- BootstrapOnce.RunAll: `invalidateDecentChatBootstrapKey` and the reset for tests, which drop the state on purpose.
- The mobile and web controllers, calls, the signaling server, invites, quotas and search: orchestration over host interfaces, or members with easy claims.
