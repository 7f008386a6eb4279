# A verified model of laye-p2p and relaye

The plugin `laye-p2p` puts a browser tab on a gossipsub mesh; `relaye` is the relay it talks to.
This project models their stateful and wire-level logic in Dafny and proves properties of it that
hold over every run or every input.

- **Outbound mesh buffer** (`Outbox.dfy`, `App.dfy`, `Net.dfy`). `App.AppState` is the plugin's
  state with its entry points as methods. Each method is proved against `Outbox`, which describes
  one topic: its peers, what waits, what reached the net. `AppState.BoxOf(t)` is topic `t`'s part of
  the object, every publish is `Outbox.Offer` and every event pump `Outbox.Drain` on each topic.
- **Whole sessions** (`Plugin.dfy`, `PluginRuns.dfy`, `Life.dfy`, `Session.dfy`). `Plugin` computes from any sequence of
  calls (host and page calls, network events, saves that end, reloads) the plugin's whole state, and for each
  topic the operations its outbox (`OpsOf`) and its receive queue (`RxOpsOf`) go through. `Session.Serve` makes
  the calls on `AppState` objects and proves that the objects are in that state and every topic's box is
  `Outbox.Run(t, OpsOf(env, calls, t))`. So the theorems about `Outbox.Run` and `Rx.RunRx` hold of the plugin,
  chat and identity topics included, and the identity invariant needs no assumption about what a boot loads.
  `Life` says what calls come to: what is kept of keys, events, logins and chat lines, from call to call.
- **Receiving** (`Rx.dfy`, `Received.dfy`). The receive queues, the length-prefixed framing and the splitter
  on the host side, end to end; what a batch of events shows in the chat and changes in the binding table.
- **Identity and chat** (`Identity.dfy`, `Chat.dfy`, `Me.dfy`, `Utf8.dfy`, `Scalars.dfy`, `Platform.dfy`). The
  binding table over gossip, logins, saves and reloads; the bytes that signatures cover; the safe trim.
- **Gateway** (`Ring.dfy`, `Wakeup.dfy`, `Delivery.dfy`, `Gateway.dfy`, `Fanout.dfy`, `Hub.dfy`, `Pumps.dfy`,
  `Server.dfy`, `Upgrade.dfy`). A sink's drop-oldest ring, its wakeups interleaved step by step, the
  registry with its weak references as objects (`Gateway`) that follow runs on values (`Fanout`, joined by
  `Hub`), all clients' pumps interleaved on values (`Pumps`) and on the objects (`Server`), the order
  subscribers see, and the routing of peeked connections.
- **HTTP** (`HttpRequest.dfy`, `HttpMessage.dfy`, `HttpResponse.dfy`, `Query.dfy`). Reading a request
  from a stream cut arbitrarily, printing responses, form and query coding.
- **OAuth** (`FlowCache.dfy`, `Oauth.dfy`, `Logins.dfy`). The lazily collected cache and the concurrent
  handlers: where every result comes from (`Oauth`), and that a login in time goes through (`Logins`).
- **Broker page** (`History.dfy`). The most-recently-used list.

`Bytes.dfy` and `Decimal.dfy` hold shared vocabulary. A Rust `String` is a byte sequence that is
well-formed UTF-8 (`Utf8.Text`).

Ed25519, serde_json and peer-id decoding are function values (`Platform.Platform`, `Oauth.Env`): the
theorems hold whatever these compute. The network is an arbitrary sequence of events, the clock a
natural number passed in.

## Properties that are not unconditional

Where a law fails for some inputs, the exact condition is proved, and an input that fails is shown:

- `Wakeup.NoLostWakeupIff`: a frame can stay behind a sleeping reader exactly when a sink has at least
  two readers and a capacity of at least two. At the relay's capacity of 128 that makes one reader the
  condition; each sink has one, its client's write loop (`Pumps.ClientHasItsSink`).
- `Pumps.SameOrderIff`: a frame is broadcast here in one step and handed to the swarm in a later one, so
  with two clients the swarm can get their frames in another order than the subscribers here; with one it
  cannot, and no client's own frames ever change places (`Pumps.EachClientInOrder`).
- `Outbox.LosslessIff`: a run loses messages otherwise than by eviction exactly when it publishes to a mesh
  or flushes a buffer while the command channel is closed (`Outbox.ClosedChannelLoses`). A session whose
  channel stays open loses nothing else (`PluginRuns.OpenSessionLosesNothing`).
- `HttpRequest.CutIndependentIff`: whether a request is accepted depends on how its bytes were cut
  into reads exactly for whole requests of 65538 to 69632 bytes (`HttpMessage.SomeRequestDependsOnItsCut`).
- `HttpResponse.RedirectSelfDelimitingIff`: the location is printed into the head unchecked, and it ends with
  a state that the client chose (`HttpResponse.RedirectCanBeMisread`). The head keeps exactly its printed lines
  when the location has no CRLF, and only then (`HttpResponse.RedirectLinesIff`).
- `Me.ClaimUnambiguousIff`: a signed claim is pinned down by its bytes only without pipes in its text
  fields and with a handle that is present and not empty.
- `Rx.RecvTakesAllIff`: the pending count wraps at 32 bits (`Rx.LongQueueWraps`); `Rx.SplitOfRecv` says what
  is read then.
- `History.TruncationCommutesIff`: a record with duplicates (which the page never writes) can lose an
  entry to early truncation (`History.DuplicatesLose`).
- `FlowCache.LazyAnswersAreIdealIff`: an answer of the lazily collected cache differs from that of ideal
  expiry exactly when the clock has gone back over the entry's expiry. The relay's `Instant` does not go
  back, so there `FlowCache.LazyAnswersAreIdeal` holds.

Where comments and code differ, the model follows the code: reading an OAuth result leaves it in
place (`crates/relaye/src/oauth_atproto.rs:476` says it drains it); a released sink leaves the
registry at the next broadcast, not at disconnect, and topics are addressed by their full name
(`crates/relaye/docs/gateway.md`).

## Model

| member | source | states |
|---|---|---|
| Outbox.Enqueued | crates/laye-p2p/src/wasm.rs:154-163 | a buffer within its cap keeps the newest eight of itself and the new message |
| Outbox.RunSettled | crates/laye-p2p/src/wasm.rs:554-677 | over any run, a meshed topic has nothing waiting and no topic has more than eight messages waiting |
| Outbox.EveryMessageAccountedFor | crates/laye-p2p/src/wasm.rs:154-205 | over any run, what reached the net is an in-order subsequence of what was published; every message is sent, waiting, evicted, or lost to a closed channel; the evicted ones have eight newer buffered ones behind them; the waiting ones are the last |
| Outbox.LosslessIff | crates/laye-p2p/src/wasm.rs:165-205 | over any run, eviction is the only loss if and only if no step publishes to a mesh, or flushes a buffer that is not empty, while the command channel is closed |
| Outbox.OpenChannelLosesNothing | crates/laye-p2p/src/wasm.rs:165-205 | with no events before the channel is first up and none of its closings after, nothing is lost but by eviction, whatever was published and pumped before |
| Outbox.ClosedChannelLoses | crates/laye-p2p/src/wasm.rs:191-203 | a publish to a mesh over a closed channel is lost |
| Outbox.PendingIsNewestEight | crates/laye-p2p/src/wasm.rs:154-163 | what waits, and so what a flush sends, is exactly the newest eight of the messages published while nobody was meshed, since a join last found nobody meshed |
| Outbox.MeshIsEventHistory | crates/laye-p2p/src/wasm.rs:580-608 | however events are batched, a peer is meshed on a topic if and only if the newest event about it there is a subscription |
| Outbox.JoinThenLeaveStillFlushes | crates/laye-p2p/src/wasm.rs:666-676 | a join followed by a leave in one batch flushes the buffer although the topic ends unmeshed |
| Outbox.MeshedIffJoined | crates/laye-p2p/src/wasm.rs:580-608 | by position: a peer is meshed if and only if it subscribed here and neither unsubscribed here nor disconnected since |
| Outbox.DrainFlushesIff | crates/laye-p2p/src/wasm.rs:580-588 | a batch empties a non-empty buffer if and only if it holds a join before which nobody is meshed; then everything that waited goes out in order (or is lost on a closed channel), else it waits on |
| Outbox.NoJoinNothingSent | crates/laye-p2p/src/wasm.rs:580-588 | until somebody joins the topic, nothing is sent on it |
| Outbox.SentExactly | crates/laye-p2p/src/wasm.rs:165-205 | what the net was handed, from the publishes, events and channel changes alone: what is published to a mesh, and the newest eight that waited when a join found nobody meshed, each while the channel was up |
| Outbox.MeshNeedsForming | crates/laye-p2p/src/wasm.rs:580-588 | a batch that ends meshed started meshed or contains a join that found the topic without peers |
| App.AppState.constructor | crates/laye-p2p/src/wasm.rs:122-142 | the initial state is valid, every topic's box is empty |
| App.AppState.EnqueueSend | crates/laye-p2p/src/wasm.rs:154-163 | only the topic's own buffer changes, by `Enqueued` |
| App.AppState.FlushPendingFor | crates/laye-p2p/src/wasm.rs:165-205 | the topic's buffer is emptied into the net in order (or lost on a closed channel); other topics are untouched |
| App.AppState.PublishInner | crates/laye-p2p/src/wasm.rs:509-548 | the exact error for every call, the publish-before-init error not being reachable; otherwise the topic's box takes the message and nothing else changes |
| App.AppState.PublishChat | crates/laye-p2p/src/wasm.rs:1040-1103 | the exact error, the signed wire offered on the chat topic, and the line shown locally unless refused |
| App.AppState.SubmitChat | crates/laye-p2p/src/wasm.rs:885-898 | an empty line does nothing; any other is cut to its longest well-formed prefix of at most 512 bytes, which is signed, offered on the chat topic and shown; the exact error for every call, and what it leaves unchanged |
| App.AppState.RepublishSelfBindings | crates/laye-p2p/src/wasm.rs:1606-1655 | the encoded self bindings, if any, are offered on the identity topic |
| App.AppState.SubscribeOpaque | crates/laye-p2p/src/wasm.rs:474-507 | the exact error, else one subscribe command after all earlier commands; no topic's box changes |
| App.AppState.HandleLoginMessage | crates/laye-p2p/src/wasm.rs:1511-1604 | the exact error; an accepted login replaces its provider's binding, enters the table, is offered for publishing and handed out for saving; a refused one changes nothing; the identity invariant is kept |
| App.AppState.InitInner | crates/laye-p2p/src/wasm.rs:321-464 | the exact error; a fresh net, the loaded identity installed, buffers and mesh kept, bindings republished; the identity invariant is kept when the stored bindings meet it |
| App.AppState.OnSubscription | crates/laye-p2p/src/wasm.rs:580-595 | the peer sets after a subscription change, no empty set, and whether the topic formed |
| App.AppState.LeaveAll | crates/laye-p2p/src/wasm.rs:597-605 | a disconnect removes the peer from every set, and reports exactly the sets that emptied |
| App.AppState.OnPeerDown | crates/laye-p2p/src/wasm.rs:597-609 | no topic is left with an empty set |
| App.AppState.OnMessage | crates/laye-p2p/src/wasm.rs:610-647 | chat is shown, identity sets absorbed, everything else kept for the host |
| App.AppState.DrainNetEvents | crates/laye-p2p/src/wasm.rs:554-685 | every topic's box drains the batch, tables and history fold over it, the host's queues grow by the host's messages; validity and the identity invariant are kept |
| App.AppState.RecvBytes | crates/laye-p2p/src/wasm.rs:265-274 | everything the pump does, and the returned buffer is exactly that of the queue after the pump, and the queue keeps the rest |
| App.AppState.PendingBytes | crates/laye-p2p/src/wasm.rs:259-262 | everything the pump does, and the count after it, wrapped at 32 bits |
| App.IngestChat | crates/laye-p2p/src/chat.rs:117-141 | a signed chat is accepted if and only if it came on the chat topic, parses, verifies and is not by this tab's key; a plain one if and only if it came on the legacy topic, parses and is not by this tab's peer id |
| App.TakeChars | crates/laye-p2p/src/chat.rs:89-91 | the shortened peer is the well-formed prefix with the first eight characters, or all when there are fewer |
| App.QueuedIsForHost | crates/laye-p2p/src/wasm.rs:574-658 | what a batch adds to the receive queues is decided event by event, independent of the tables |
| App.HostReceivesItsTopics | crates/laye-p2p/src/wasm.rs:610-647 | chat never reaches the host; on every ordinary topic all messages do, in order |
| App.ReceiveKeepsTable | crates/laye-p2p/src/wasm.rs:635-646 | a batch of gossip keeps every table entry non-empty, verified and about its own key |
| Received.BatchShows | crates/laye-p2p/src/wasm.rs:610-634 | the chat after a batch is its newest lines: each accepted message its own body under its own author's name, as the events before it made that known, and nothing else |
| Received.NameShown | crates/laye-p2p/src/chat.rs:103-113 | an author goes by its first handle, without any by the hex of its first four key bytes |
| Received.GossipDecides | crates/laye-p2p/src/identity.rs:21-38 | the last set a key published in a batch is its entry: in order, exactly the bindings of it that are about the key and have a valid signature; without any the entry is gone |
| Received.OthersStay | crates/laye-p2p/src/identity.rs:32-38 | a key that published nothing keeps its entry |
| Received.HostGetsKeyless | crates/laye-p2p/src/wasm.rs:635-647 | of the identity topic the host gets exactly the messages whose sender has no key |
| Session.Serve | crates/laye-p2p/src/wasm.rs:259-685 | after any sequence of calls, network events, saves and reloads: key, bindings, table, history, channel and pending events are those `Plugin.StateOf` computes; every topic's box is the outbox run, and every queue with what the host split off is the receive run, of the calls; the identity invariant holds |
| PluginRuns.OpsAreTheCalls | crates/laye-p2p/src/wasm.rs:509-548 | every topic's outbox gets exactly the polled events, and a host topic's exactly the host's publishes, in order |
| PluginRuns.EveryTopicAccountedFor | crates/laye-p2p/src/wasm.rs:154-205 | after any session, for every topic (chat sends and identity republishes too): each publish accounted for in order, at most eight waiting and none when meshed, the mesh decided by the newest polled event about each peer |
| PluginRuns.OpenSessionLosesNothing | crates/laye-p2p/src/wasm.rs:165-205 | a session whose channel is not closed under a net loses no message of any topic but to eviction, those published before the init included |
| PluginRuns.ReadsArePolled | crates/laye-p2p/src/wasm.rs:265-274 | while the queue fits 32 bits at each receive, what the host read of an ordinary topic followed by what is queued is every message polled on it, in order |
| PluginRuns.ChatIsNeverRead | crates/laye-p2p/src/wasm.rs:610-634 | no session ever queues chat for the host |
| PluginRuns.SessionKeepsIdentity | crates/laye-p2p/src/wasm.rs:367-450 | over any session every table entry is non-empty, verified and about its own key, and the self bindings, the stored record and every save under way are verified, own and one for each provider |
| Life.InitBoots | crates/laye-p2p/src/wasm.rs:321-450 | an init that gets through its loading boots with the stored key, or the one it mints and saves, and with the stored bindings, which become the key's entry |
| Life.InitFails | crates/laye-p2p/src/wasm.rs:321-400 | any other init changes nothing but a key that was minted and saved |
| Life.KeyPersists | crates/laye-p2p/src/wasm.rs:352-391 | a key once stored is stored ever after, over reloads too |
| Life.EventsAreKept | crates/laye-p2p/src/wasm.rs:554-573 | between inits, what was polled followed by what waits is what arrived, in order |
| Life.PollLeavesNothing | crates/laye-p2p/src/wasm.rs:554-573 | every pump, count and receive polls all that waits |
| Life.CloseShuts | crates/laye-p2p/src/wasm.rs:191-203 | a closed channel is down |
| Life.ReceiveReadsAll | crates/laye-p2p/src/wasm.rs:265-274 | while the queue fits 32 bits, after a receive the host has read every message polled for it on the topic, and nothing is queued |
| Life.LoginTakes | crates/laye-p2p/src/wasm.rs:1533-1566 | a login with a valid binding about the own key takes effect at once, in the self bindings and the table, and starts to be saved |
| Life.LoginFails | crates/laye-p2p/src/wasm.rs:1511-1559 | any other changes nothing |
| Life.SaveEndsExactly | crates/laye-p2p/src/wasm.rs:1583-1604 | a save that ends well makes its snapshot the record, one that fails leaves it |
| Life.SavedLoginReturns | crates/laye-p2p/src/wasm.rs:1561-1604 | an accepted login whose save ends well is back after any further calls, a reload and an init: bindings, own entry and key |
| Life.UnsavedLoginIsGone | crates/laye-p2p/src/wasm.rs:1583-1604 | one whose save never ends is gone with the page, and the older record comes back |
| Life.PollAbsorbs | crates/laye-p2p/src/wasm.rs:635-647 | after a poll a key's entry holds exactly the bindings that count of the last set it published |
| Life.PollLeavesOthers | crates/laye-p2p/src/wasm.rs:635-647 | a key that published nothing keeps its entry |
| Life.OwnIsNotShown | crates/laye-p2p/src/chat.rs:117-141 | the tab's own messages, signed by its key or plain under the key's hex, are not shown when they come back |
| Life.HistoryIsNewestForty | crates/laye-p2p/src/chat.rs:50-55 | after any session the chat shows the newest forty of all lines since the page was loaded: those received and those sent, cut to 512 bytes |
| Life.SayPublishes | crates/laye-p2p/src/wasm.rs:1040-1103 | a line is published, signed, on the chat topic and no other |
| Life.LoginPublishes | crates/laye-p2p/src/wasm.rs:1606-1655 | an accepted login publishes the whole new set on the identity topic and no other |
| Life.BootPublishes | crates/laye-p2p/src/wasm.rs:451-464 | a boot publishes the stored set there |
| Rx.FromLEInvertsU32LE | crates/laye-p2p/src/state.rs:47-47 | the little-endian length word reads back |
| Rx.LittleEndian | crates/laye-p2p/src/state.rs:47-47 | the bytes of the length word count 1, 256, 65536 and 16777216 times, printed and read |
| Rx.Fit | crates/laye-p2p/src/state.rs:35-53 | the frames that fit are the longest prefix within the room |
| Rx.RxState.Ingest | crates/laye-p2p/src/state.rs:20-26 | each topic's queue grows by its own messages in order |
| Rx.RxState.PendingBytes | crates/laye-p2p/src/state.rs:28-33 | the framed size of the queue, wrapped at 32 bits |
| Rx.RxState.DrainInto | crates/laye-p2p/src/state.rs:37-53 | the frames that fit are written from the front, the rest of the buffer is untouched, exactly those are dequeued, other topics keep theirs |
| Rx.SplitFrames | bevy-starter/src/laye_extern.rs:42-57 | the loop computes `Split` |
| Rx.SplitInvertsEncode | bevy-starter/src/laye_extern.rs:42-57 | splitting encoded frames gives them back and carries on with what follows |
| Rx.SplitIgnoresPartial | bevy-starter/src/laye_extern.rs:50-52 | any proper prefix of a frame yields no frame |
| Rx.RecvTakesAllIff | crates/laye-p2p/src/wasm.rs:265-274 | a receive empties the queue into an exactly filled buffer if and only if the framed size is below 2^32 |
| Rx.LongQueueWraps | crates/laye-p2p/src/state.rs:28-33 | a queue of one frame of 2^32 bytes is not received whole |
| Rx.SplitOfRecv | crates/laye-p2p/src/wasm.rs:265-274 | what the host reads from any receive: the dequeued frames and one empty frame for each four bytes of slack |
| Rx.ReadThenQueuedIsArrived | crates/laye-p2p/src/state.rs:20-53 | over any interleaving, what the host read followed by what is queued is what arrived, in order |
| Chat.TrimToCharBoundary | crates/laye-p2p/src/chat.rs:78-87 | the longest well-formed prefix within the limit, at most three bytes below it when it cuts |
| Chat.ChatState.Push | crates/laye-p2p/src/chat.rs:50-55 | the history keeps its newest entries up to its cap |
| Chat.HistoryIsNewest | crates/laye-p2p/src/chat.rs:50-55 | after any pushes the history is the newest `cap` of everything pushed |
| Utf8.BoundaryIsValidPrefix | crates/laye-p2p/src/chat.rs:83-85 | in well-formed text character boundaries are exactly the lengths of well-formed prefixes |
| Scalars.ValidIffEncoded | crates/laye-p2p/src/chat.rs:78-91 | a text is well-formed exactly when some Unicode scalar values encode to it (section 3 of RFC 3629), and has that many characters |
| Identity.ParseAndVerify | crates/laye-p2p/src/identity.rs:21-28 | nothing when the wire does not parse; else exactly the bindings that verify and are about the publisher, each as often as sent and in the order sent |
| Identity.FirstHandle | crates/laye-p2p/src/binding.rs:12-17 | the first handle present, if any is |
| Identity.BindingTable.Absorb | crates/laye-p2p/src/identity.rs:32-38 | the published set replaces the peer's entry, an empty one removes it |
| Identity.LoggedIn | crates/laye-p2p/src/wasm.rs:1561-1566 | the new binding comes first; behind it exactly the other providers' bindings, unchanged in number and order |
| Identity.LoginKeepsGoodSelf | crates/laye-p2p/src/wasm.rs:1538-1566 | an accepted login keeps the self bindings verified, own, and one for each provider |
| Identity.TableInvariant | crates/laye-p2p/src/wasm.rs:367-450 | over any run of gossip, logins, saves in any order and reloads, every table entry is non-empty, verified and about its own key; self bindings, pending saves and the stored record too, with one binding for each provider |
| Identity.SavedLoginReturns | crates/laye-p2p/src/wasm.rs:1561-1604 | a login whose save ends well is what a reload brings back; one still being saved is forgotten |
| Identity.AttributionIsVerified | crates/laye-p2p/src/chat.rs:103-113 | over any such run, the name shown for an author is a handle that a verifying binding gives that key, or the key's short hex when there is none |
| Me.HexNibble | crates/me/src/lib.rs:134-141 | accepts exactly the hex digits of either case, with their value |
| Me.HexLower | crates/me/src/lib.rs:111-119 | the loop computes `HexOf` |
| Me.HexDecode | crates/me/src/lib.rs:121-132 | the loop computes `UnHex`, errors included |
| Me.HexOfAt | crates/me/src/lib.rs:111-119 | each byte prints as two lower-case digits, high half first |
| Me.UnHexAt | crates/me/src/lib.rs:121-132 | two digits of either case read as one byte, the first as its high half |
| Me.UnHexInvertsHexOf | crates/me/src/lib.rs:111-132 | decoding inverts printing |
| Me.UnHexOkIff | crates/me/src/lib.rs:121-132 | decoding accepts exactly the even-length hex strings |
| Me.HexOfUnHexFoldsCase | crates/me/src/lib.rs:111-132 | printing what was decoded folds the text to lower case |
| Me.ChatBytesInjective | crates/me/src/lib.rs:60-68 | the signed bytes of a chat determine author, time and body, for all bodies |
| Me.ChatBytesAre | crates/me/src/lib.rs:60-68 | the signed bytes of a chat, field by field |
| Me.ClaimBytesAre | crates/me/src/lib.rs:87-95 | those of a claim; an absent handle prints like an empty one |
| Me.ChatBytesAreNotClaimBytes | crates/me/src/lib.rs:60-95 | no chat shares its signed bytes with a binding |
| Me.ClaimBytesAgree | crates/me/src/lib.rs:87-95 | two claims share their bytes exactly when key, time and the joined text fields agree |
| Me.ClaimUnambiguousIff | crates/me/src/lib.rs:87-95 | a claim is the only one with its bytes if and only if its text fields are pipe-free and its handle is present and not empty |
| Ring.PushedIsNewest | crates/relaye/src/gateway.rs:102-109 | a push leaves the newest max(cap,1) of the queue and the frame |
| Ring.RingIsExact | crates/relaye/src/gateway.rs:102-131 | for every run the queue is a suffix of everything pushed within max(cap,1), what came out is an in-order subsequence, and a frame is evicted if and only if max(cap,1) newer ones were pushed before it was popped |
| Ring.Conservation | crates/relaye/src/gateway.rs:102-131 | pushed equals popped plus evicted plus queued |
| Wakeup.OneReaderInv | crates/relaye/src/gateway.rs:102-123 | with one reader, it never sleeps beside a frame unless a producer is about to wake it |
| Wakeup.NextReturnsOldest | crates/relaye/src/gateway.rs:113-123 | with frames waiting and the reader in `next`, the push under way and two moves of the reader return the then-oldest frame |
| Wakeup.PushGoesThrough | crates/relaye/src/gateway.rs:102-109 | a push that finds the lock free gets its frame in behind the others, evicting only when full, and leaves a permit when nobody is parked |
| Wakeup.CallReturnsOldest | crates/relaye/src/gateway.rs:113-123 | a call of `next` that finds frames returns the oldest at once |
| Wakeup.NotifyWakesFirst | crates/relaye/src/gateway.rs:102-123 | a push that ends with readers parked sends the one that parked first to look again |
| Wakeup.FirstParkedFirstWoken | crates/relaye/src/gateway.rs:113-123 | over any further steps readers are woken in the order they parked, no more than pushes ended |
| Delivery.NextReadsTheRing | crates/relaye/src/gateway.rs:102-123 | however producers and readers interleave, the queue and all that `next` returned are those of the ring's run of pushes and pops |
| Wakeup.NoLostWakeupIff | crates/relaye/src/gateway.rs:102-123 | for every number of readers and every capacity: no run loses a wakeup if and only if there is at most one reader or the capacity is at most one |
| Gateway.BroadcastSink.PushFrame | crates/relaye/src/gateway.rs:102-109 | the queue becomes `Pushed` |
| Gateway.BroadcastSink.TryNext | crates/relaye/src/gateway.rs:128-131 | the oldest frame, or none and no change |
| Gateway.TopicRegistry.Subscribe | crates/relaye/src/gateway.rs:156-162 | a fresh empty sink is appended to the topic's list, all other lists stay |
| Gateway.PushToLive | crates/relaye/src/gateway.rs:172-179 | each live sink of the list gets the frame once and is kept, dead ones are dropped |
| Gateway.LiveOfExact | crates/relaye/src/gateway.rs:172-179 | the kept list is exactly the live sinks, nobody twice |
| Gateway.TopicRegistry.Broadcast | crates/relaye/src/gateway.rs:167-180 | every live sink of the topic gets the frame once, no other sink is touched, the topic's list keeps its live sinks in order |
| Gateway.TopicRegistry.SubscriberCount | crates/relaye/src/gateway.rs:187-192 | the number of live sinks, pruned or not |
| Hub.Hub.Subscribe | crates/relaye/src/gateway.rs:156-162 | the objects follow a subscription of `Fanout`: the new sink is the next one, empty, listed last on its topic |
| Hub.Hub.Broadcast | crates/relaye/src/gateway.rs:167-180 | the objects follow a broadcast of `Fanout`, every sink's queue and every list |
| Hub.Hub.Read | crates/relaye/src/gateway.rs:128-131 | the objects follow a read of `Fanout`, and the frame answered is the one the run gives out |
| Hub.Hub.Release | crates/relaye/src/gateway.rs:135-141 | dropping a subscriber's sink follows a release of `Fanout` |
| Hub.Hub.SubscriberCount | crates/relaye/src/gateway.rs:187-192 | the count answered is that of the run |
| Pumps.EachClientInOrder | crates/relaye/src/gateway.rs:38-61 | however all pumps, swarm broadcasts and disconnects interleave, each client's binary frames up to its close are broadcast once and handed to the swarm once, both in its order, but for at most a last frame between the two or refused by a closed channel |
| Pumps.SubscribersHearOneOrder | crates/relaye/src/gateway.rs:34-76 | over any such run every sink is pushed its topic's one sequence of broadcasts, clients' and swarm's, for as long as it lives, and writes out an in-order part of it |
| Pumps.SwarmFramesAreBroadcast | crates/relaye/src/main.rs:337-346 | the swarm's entries among the broadcasts are exactly the frames that came in from it, in order with their topics |
| Pumps.ClientsAreConnects | crates/relaye/src/gateway.rs:20-34 | one client for each connection, on its topic, gone only when dropped; the channel is open until the swarm ends |
| Pumps.WriteGivesOldest | crates/relaye/src/gateway.rs:64-68 | a write of a client that is there gives out the oldest frame of its sink, if there is one |
| Pumps.TalkIsRelayed | crates/relaye/src/gateway.rs:38-61 | a client that sends frame after frame, while everybody else does anything in between, has every frame broadcast and handed to the swarm |
| Pumps.NothingAfterTheEnd | crates/relaye/src/gateway.rs:56-60 | after the swarm's end it is handed nothing more |
| Pumps.DropEndsTheSink | crates/relaye/src/gateway.rs:71-75 | a client that is dropped leaves its sink dead |
| Pumps.ClientHasItsSink | crates/relaye/src/gateway.rs:34-34 | every client writes from a sink of its own topic with capacity 128, live while the client is there; every sink is one client's and no two share one |
| Pumps.OrdersCanDiffer | crates/relaye/src/gateway.rs:52-60 | a run in which the swarm gets two clients' frames in the other order |
| Pumps.SameOrderIff | crates/relaye/src/gateway.rs:52-60 | the swarm gets clients' frames in the order of the broadcasts here, in every run of at most n clients, if and only if n is at most one |
| Server.Hear | crates/relaye/src/gateway.rs:40-52 | one message of a client on the objects: a binary frame reaches every live sink of its topic and the loop goes on to send it, a close or failure ends the loop, anything else is skipped |
| Server.Send | crates/relaye/src/gateway.rs:53-60 | the frame just broadcast is handed to the swarm after all earlier commands, or the loop ends on a closed channel |
| Server.Write | crates/relaye/src/gateway.rs:64-68 | the write loop takes the oldest frame of its client's own sink |
| Server.Serve | crates/relaye/src/gateway.rs:20-76 | registry, sinks and command channel as objects follow every interleaving of connects, messages, sends, writes, drops and swarm frames |
| Fanout.PushedIsTheLog | crates/relaye/src/gateway.rs:156-180 | over any run a sink was pushed exactly its topic's broadcasts from its subscription to its release, each once, in one order, none from other topics |
| Fanout.OneTotalOrder | crates/relaye/src/gateway.rs:156-180 | what a sink's reader got is a subsequence of that log in its order |
| Fanout.LogIsBroadcasts | crates/relaye/src/gateway.rs:167-180 | a topic's log is its broadcasts, in order |
| Fanout.SinksAreAlone | crates/relaye/src/gateway.rs:156-192 | lists, order and pruning come to this: each subscriber has the history of pushes, reads and release it would have alone, hearing all of its topic while it lives |
| Fanout.PruningIsUnobservable | crates/relaye/src/gateway.rs:172-192 | a registry that never prunes gives every sink the same history and every topic the same subscriber count |
| Upgrade.RouteOf | crates/relaye/src/gateway.rs:235-245 | a target is routed to a topic if and only if it is "/ws/" and an allow-listed topic, to libp2p if and only if it is "/" |
| Upgrade.TargetIff | crates/relaye/src/gateway.rs:286-294 | a target is found if and only if a complete first line in UTF-8 has it between its first two spaces |
| Upgrade.AnyCaseUpgrades | crates/relaye/src/gateway.rs:215-219 | a peek is an upgrade if and only if "upgrade: websocket" stands somewhere in it, in any letter case |
| Upgrade.LowerIs | crates/relaye/src/gateway.rs:217-217 | case folding adds 32 to upper-case letters and changes nothing else |
| Upgrade.ClassifyIsStable | crates/relaye/src/gateway.rs:228-246 | a verdict other than NotUpgrade is the verdict of every extension |
| Upgrade.NotUpgradeFinalIff | crates/relaye/src/gateway.rs:228-246 | with a complete first line, NotUpgrade is final if and only if that line has no target |
| Upgrade.ClassifyPrinted | crates/relaye/src/gateway.rs:286-294 | a printed upgrade request is routed by its target |
| Upgrade.GatewayMeansAllowedTopic | crates/relaye/src/gateway.rs:228-246 | a gateway verdict means the first line reads verb, "/ws/" and the topic, version, with the topic allow-listed |
| HttpRequest.TrimIsTheInside | crates/relaye/src/status_page.rs:243-245 | trimming gives the slice between white space in front and white space behind, and the slice has none at its own ends |
| HttpRequest.ParseContentLength | crates/relaye/src/status_page.rs:239-250 | the loop computes `ContentLength`: the first content-length line decides |
| HttpRequest.FirstDecides | crates/relaye/src/status_page.rs:241-249 | the first content-length line decides whatever stands behind it |
| HttpRequest.NoneDecides | crates/relaye/src/status_page.rs:241-250 | without one there is no length |
| HttpRequest.UsizeIff | crates/relaye/src/status_page.rs:239-250 | a length parses exactly when it is digits, with a plus sign in front or not, worth less than 2^64 |
| Decimal.ValueAt | crates/relaye/src/status_page.rs:239-250 | digits are positional: each counts ten times the one behind it |
| HttpRequest.NoRequest | crates/relaye/src/status_page.rs:215-232 | a head that is not UTF-8, or a first line without a space, is no request |
| HttpRequest.TwoPartRequest | crates/relaye/src/status_page.rs:215-232 | a first line with one space has the target behind it |
| HttpRequest.ThreePartRequest | crates/relaye/src/status_page.rs:215-232 | one with more has it between the first two |
| HttpRequest.ReadFullRequest | crates/relaye/src/status_page.rs:185-213 | the loop computes `Feed`, and its buffer never exceeds 65536 + 4096 bytes |
| HttpRequest.CompletedExtend | crates/relaye/src/status_page.rs:196-204 | a complete request is the same request in every longer buffer |
| HttpRequest.FeedIsWholeParse | crates/relaye/src/status_page.rs:185-213 | for any cut into reads: a request of at most 65537 bytes gets the whole-buffer parse, one of more than 69632 is refused, an incomplete stream is refused exactly when longer than 65536, and one between is parsed whole or refused |
| HttpRequest.CutIndependentIff | crates/relaye/src/status_page.rs:185-213 | the answer is independent of the cut if and only if no whole request of 65538 to 69632 bytes is there |
| HttpMessage.SomeRequestDependsOnItsCut | crates/relaye/src/status_page.rs:185-213 | a POST with a body of 66000 bytes is one whose answer depends on the cut |
| HttpMessage.ParseInvertsPrint | crates/relaye/src/status_page.rs:215-232 | a printed request parses back to its verb, path and body, with its length announced or with no length and an empty body |
| HttpMessage.HeadEnds | crates/relaye/src/status_page.rs:234-237 | the first empty line of a printed message ends its head, whatever the body contains |
| HttpMessage.LinesOfJoin | crates/relaye/src/status_page.rs:239-241 | splitting a printed head gives its lines back |
| HttpMessage.PrintedIsWhole | crates/relaye/src/status_page.rs:196-204 | a printed message with the right length is read as exactly one message |
| HttpResponse.JsonIsSelfDelimiting | crates/relaye/src/status_page.rs:414-439 | for every status and body the response is read back as one whole message with that body |
| HttpResponse.JsonOpensWithStatus | crates/relaye/src/status_page.rs:414-439 | its first line is the version, the status in decimal and a reason |
| HttpResponse.StatusIsSelfDelimiting | crates/relaye/src/status_page.rs:562-570 | so is the status page |
| HttpResponse.StatusPageOpensWithOk | crates/relaye/src/status_page.rs:562-570 | its first line is "HTTP/1.1 200 OK" |
| HttpResponse.NotFoundIsSelfDelimiting | crates/relaye/src/gateway.rs:250-259 | so is the 404 response |
| HttpResponse.NotFoundOpensWith404 | crates/relaye/src/gateway.rs:250-259 | its first line is "HTTP/1.1 404 Not Found" |
| HttpResponse.RedirectOpensWithLocation | crates/relaye/src/status_page.rs:385-395 | a redirect opens with "HTTP/1.1 302 Found" and the location as it is |
| HttpResponse.RedirectSelfDelimitingIff | crates/relaye/src/status_page.rs:385-395 | a redirect is read back as one whole message if and only if its location adds no empty line and no wrong content-length line to the head |
| HttpResponse.RedirectLinesIff | crates/relaye/src/status_page.rs:385-395 | the head of a redirect has exactly its printed lines if and only if its location holds no CRLF |
| HttpResponse.RedirectCanBeMisread | crates/relaye/src/oauth_atproto.rs:998-998 | a state for which the redirect after a login is not read back as one whole message |
| HttpResponse.PlainRedirectIsSelfDelimiting | crates/relaye/src/status_page.rs:385-395 | in particular when the location holds no CRLF |
| Query.PercentEncodeInto | crates/relaye/src/oauth_atproto.rs:676-688 | the loop appends `Encoded` |
| Query.UrlEncodeForm | crates/relaye/src/oauth_atproto.rs:663-674 | the loop computes `EncodedForm` |
| Query.PercentDecode | crates/relaye/src/status_page.rs:295-322 | the loop computes `Decoded` |
| Query.SplitPathAndQuery | crates/relaye/src/status_page.rs:276-293 | the path before the first '?', and the map its pairs build in order; without '?' the whole target and no parameters |
| Query.DecodeInvertsEncode | crates/relaye/src/status_page.rs:295-322 | decoding inverts encoding on every string |
| Query.QueryRoundTrip | crates/relaye/src/status_page.rs:276-293 | any pairs printed behind any path without '?' are read back as that path and the map they build |
| Query.LaterPairsWin | crates/relaye/src/status_page.rs:284-291 | in that map the last pair of a key gives its value |
| Query.ParamIsLast | crates/relaye/src/status_page.rs:283-291 | in any query, a key has the decoded value of the last part that names it |
| Query.UnnamedIsAbsent | crates/relaye/src/status_page.rs:283-291 | a key that no part names is absent |
| Query.BareKey | crates/relaye/src/status_page.rs:287-290 | a part without '=' is a key with the empty value |
| Query.EmptyPart | crates/relaye/src/status_page.rs:284-286 | an empty part changes nothing |
| Query.SplitIsUnjoined | crates/relaye/src/status_page.rs:283-283 | the parts are free of the separator and give the text when joined |
| Query.AnyWritingDecodes | crates/relaye/src/status_page.rs:295-322 | a text written in any way, plus signs for spaces, any bytes as triples in either case, is read back; bytes that are not UTF-8 give the empty text |
| Query.StrayPercent | crates/relaye/src/status_page.rs:303-316 | a percent sign without two hex digits behind it stays |
| Query.EncodedByteIs | crates/relaye/src/oauth_atproto.rs:676-688 | letters, digits and "-._~" print as they are, any other byte as a triple of upper-case digits |
| FlowCache.FlowCache.CollectGarbage | crates/relaye/src/oauth_atproto.rs:562-570 | exactly the entries younger than 600 seconds stay |
| FlowCache.FlowCache.AddFlow | crates/relaye/src/oauth_atproto.rs:521-525 | collection, then the flow is stored under its state |
| FlowCache.FlowCache.Take | crates/relaye/src/oauth_atproto.rs:527-531 | collection, then the flow is answered and removed |
| FlowCache.FlowCache.AddResult | crates/relaye/src/oauth_atproto.rs:533-543 | collection, then the result is stored under its state |
| FlowCache.FlowCache.Get | crates/relaye/src/oauth_atproto.rs:549-553 | collection, then the result is answered and left |
| FlowCache.AnswersExactly | crates/relaye/src/oauth_atproto.rs:521-570 | under any clock, every answer is that of the history (the flow last put and not taken, or the result last put) if its age is below 600 seconds at the latest time shown since it was put |
| FlowCache.LazyAnswersAreIdealIff | crates/relaye/src/oauth_atproto.rs:521-570 | so an answer is the ideal one if and only if no earlier access showed a time past the expiry of an entry that this one's time has not reached |
| FlowCache.LazyAnswersAreIdeal | crates/relaye/src/oauth_atproto.rs:521-570 | in particular whenever no earlier access showed a later time: the flow last put and not taken, or the result last put, up to 600 seconds after its stamp and no longer |
| FlowCache.FlowIsAnswered | crates/relaye/src/oauth_atproto.rs:521-531 | by position: a flow put in, and not put in or taken again, is answered up to 600 seconds after its stamp and no longer |
| FlowCache.TakenFlowIsNotAnswered | crates/relaye/src/oauth_atproto.rs:527-531 | one that was taken, and not put in again, never |
| FlowCache.ResultIsAnswered | crates/relaye/src/oauth_atproto.rs:533-553 | a result is answered every time for 600 seconds, until the next one there |
| FlowCache.NothingFromNothing | crates/relaye/src/oauth_atproto.rs:527-553 | a state under which nothing was put in answers nothing |
| FlowCache.ClockMustNotGoBack | crates/relaye/src/oauth_atproto.rs:562-570 | a history with a clock that goes back, where the answers differ |
| Oauth.Finish | crates/relaye/src/oauth_atproto.rs:950-995 | a signed result needs the token's subject to be the flow's DID, and carries the flow's key, DID and "@"-handle, signed by the relay |
| Oauth.ResultHasProvenance | crates/relaye/src/oauth_atproto.rs:861-998 | however handlers interleave, a readable result under a state comes from three steps of the run in order: a start under that state, a callback taking exactly that flow, and the end of that callback with a token reply whose subject is the start's DID; it names the start's key, DID and "@"-handle and the relay signed it |
| Oauth.LoginOf | crates/relaye/src/oauth_atproto.rs:957-995 | the same for every result ever issued, read or not |
| Oauth.FlowsAreSpentOnce | crates/relaye/src/oauth_atproto.rs:527-543 | no two results come from one flow, and a taken flow is never taken again |
| Oauth.CallbackEndsExactly | crates/relaye/src/oauth_atproto.rs:957-995 | a callback adds a result if and only if the subject matches and the relay signs (the stored key always decodes); else the cache is untouched and the flow stays spent |
| Logins.StartedFlowIsFound | crates/relaye/src/oauth_atproto.rs:861-873 | a started login can be taken, just as it was started, up to 600 seconds after its stamp and no longer, until another start or a callback under its state |
| Logins.CallbackTakesTheFlow | crates/relaye/src/oauth_atproto.rs:896-908 | a free callback that comes in time takes exactly that flow, and nobody finds it afterwards |
| Logins.CallbackHoldsTheFlow | crates/relaye/src/oauth_atproto.rs:906-956 | it holds the flow until its own end, whatever the other handlers do |
| Logins.SignedResultIsRead | crates/relaye/src/oauth_atproto.rs:957-998 | when it ends with the flow's DID and the relay signs, every read under its state for 600 seconds, until the next result there, answers a binding with the flow's key, DID and "@"-handle, that time, that signature and the relay's key; a later read nothing |
| Logins.LoginCompletes | crates/relaye/src/oauth_atproto.rs:861-998 | a login that is started, taken in time and confirmed can be read for 600 seconds and says what it was started with |
| Oauth.ResultIsAcceptedAtLogin | crates/laye-p2p/src/wasm.rs:1533-1559 | with a correct signature scheme the plugin owning the key accepts the result as its login |
| History.LoadAfterRemember | broker/atproto.js:130-151 | after a stored use the page loads the first eight of the used list |
| History.StringsAreKept | broker/atproto.js:130-140 | what is read of a record is its non-empty strings in order, whatever else stands between |
| History.MostRecentFirst | broker/atproto.js:142-151 | in the unbounded list a handle used later stands in front of one used earlier or never, and every used one is there |
| History.StoredIsNewestEight | broker/atproto.js:142-151 | after any uses the page shows exactly the first eight of the unbounded duplicate-free most-recent-first list |
| History.DuplicatesLose | broker/mastodon.js:85-94 | a list with the handle twice among its first eight and another handle behind them loses an entry |
| History.TruncationCommutesIff | broker/mastodon.js:85-94 | for any list, truncating before a use is harmless if and only if at most one of its first eight is the handle or nothing else stands behind them |

## Left out

- Rx.SplitFrames: `usize` is unbounded here; on wasm32 adding a length word near 2^32 to the offset can wrap, which buffers filled by the receive queues never cause.
- Rx.RxState.PendingBytes: wraps as release builds do; a debug build stops at the overflow instead.
- App.AppState.DrainNetEvents: the error overlay, its coalescing and the rendering that follows the pump are not modelled.
- App.IngestChat: which bytes parse is left to the platform's parsers.
- Gateway.BroadcastSink.PushFrame: the notification is modelled in `Wakeup`, where it interleaves with the readers, not on the object.
- Identity.TableInvariant: one tab owns the stored record; two tabs that mint different keys at once are not modelled.
- Handle, DID, PDS and auth-server resolution, Mastodon calls, PAR, DPoP and JWT signing: network and cryptography; their outcomes are inputs of the steps.
- The rejection of malformed start, callback and result requests before the cache is touched.
- Gateway.ReadPump: states the read loop with nothing else running; `Server` and `Pumps` state it interleaved.
- Session.Serve: takes an init as one step; what the page does between an init's awaits is not interleaved with it.
- The WebSocket handshake and the socket writes of a gateway client: the write loop is `Write` in `Pumps`, its `next` is modelled in `Wakeup`.
- The libp2p swarm, its drive task and connection handling: a source of events and a sink of commands.
- JSON coding (serde): function values; IndexedDB: one abstract record with asynchronous saves.
- The status page's HTML, sparklines and metrics: presentation and floating point.
- The DOM overlays, popups, polling for the OAuth result, the Bevy crates and key loading: glue around the state modelled here.
- The 501 response and `try_next` as a polling pipe: unused in the repository.
