# Verified model of the agent channel

The repository connects a phone to an agent over an untrusted network: an authenticated handshake,
an encrypted channel with per-stream counters and anti-replay windows, an adaptive jitter buffer for
UDP audio, a buffer that holds frames back while the link is partitioned, and a display surface that
the agent fills with assets and widgets. This project models those parts and proves what they promise.

## How the model is built

Each stateful component appears twice. A *specification* gives its state as a value with one function
per operation; a *class* with the source's fields has one method per operation, written with the
source's branches and loops, whose postcondition equates the new state with the specification's. The
properties are then lemmas about runs of the specification: any sequence of operations, in any order.
The partition buffer's threads take finer steps than its methods; there the runs use the buffer's own
enqueue operation, and `PartitionRuns.AuthenticatedLeads` shows the flush steps to be its flush.

| module | models | shape |
|---|---|---|
| `Replay`, `Frames`, `WireBuffers`, `Channels` | anti-replay window, byte layouts, channel | ring buffer on an array against a plain set; codecs with round trips; buffers filled in place |
| `OpenRaces` | the phone's channel under two receive threads | transition system at the granularity of the window's locks |
| `Network` | two mirrored channels and an attacker who drops, duplicates, reorders and injects wire bytes | transition system |
| `SecretOrder`, `Handshake`, `HandshakeRuns` | key derivation, transcript, the three messages, any number of attacked sessions | functions; transition system |
| `HttpGateway`, `WsGateway` | the session map and the per-connection state machine | class plus runs of requests |
| `GatewayAnswers`, `WsAnswers` | what an honest client of either gateway gets back, opened at its own end of the channel | theorems over runs |
| `GatewayTakeover` | the session map composed with any number of attacked handshakes | theorem over both runs |
| `Jitter`, `JitterRuns`, `JitterTiming`, `JitterTarget` | the jitter buffer under any interleaving of push, pull and tick | class plus runs with ledgers |
| `UdpMedia`, `MediaRuns`, `MediaEvents`, `CommandAsMedia` | the UDP receiver, alone and as one end of the attacked network; what its consumers are handed; commands taken for media | class plus composed transition system |
| `Base64Size`, `Utf8`, `Surface`, `SurfaceRuns`, `SurfaceEvents` | the surface store, its size arithmetic and its text decoder, and the host that follows its events | class plus runs of ops |
| `Partition`, `PartitionRuns`, `PartitionDelivery`, `PartitionLoss` | the phone's partition buffer, its threads, the agent's channel at the other end, and a run that loses frames | class plus lock-granular transition system |
| `Bytes`, `Maps`, `Primitives` | byte strings, options, results; laws of maps; the idealised cryptographic primitives | |

The main results, one line each:

- Everything a channel hands up over the attacked network was sealed by the peer with that type byte,
  stream, counter and plaintext, and is handed up once; an intact message is handed up exactly when it
  is new and less than the window behind, and whatever is sent next arrives if nothing stops it
  (`Network`).
- A handshake that completes leaves both sides with the same four public keys and mirrored keys, and
  over any number of attacked sessions authentication is mutual and one to one (`Handshake`,
  `HandshakeRuns`).
- From any session map with room an allowed client ends with a session of its own, whatever goes on
  under other names meanwhile, and everything it says is answered with the agent's answer, which it opens; on a WebSocket a
  ping draws a pong and a command its echo (`GatewayAnswers`, `WsAnswers`).
- Everything a UDP receiver plays for real is a plaintext its peer sealed, in increasing order; that it
  was sealed as media holds exactly as long as nothing else the peer seals looks like media (`MediaRuns`).
  Every frame event its consumers get is such a plaintext, or asks to conceal a packet that never came
  (`MediaEvents`).
- A channel live under a client's name is a session of that client exactly when the confirmed hello
  carried the client's own key (`GatewayTakeover`).
- Every position of the playout is played or skipped once, every frame is accounted for, losses are
  never under-reported, and the drain loop ends except in one exactly described case (`JitterRuns`,
  `JitterTiming`).
- When a missing packet is given up is known to the pull, whatever happens in between, and so is where the
  target settles, from the packets of the run (`JitterTiming`). After every packet the target is the baseline,
  the frames that cover the weighted deviations, and the packets lost since the last tick (`JitterTarget`).
- Storage usage is exact in every reachable state, a finished numbered asset is exactly its chunks,
  and an aborted upload stays dead until restarted (`SurfaceRuns`). An uninterrupted upload finishes exactly
  if it fits, and a host that only follows the events shows exactly the store's widgets (`SurfaceEvents`).
- No interleaving of the phone's threads loses, repeats or reorders a frame except by trimming; the
  agent hands up exactly the messages that nothing sent before them outran by a window, each once and
  in order. If the threads enqueue in the order they sealed, only pings can outrun a message
  (`PartitionRuns`, `PartitionDelivery`).

## Where the code differs from its own documentation

- `transport/adaptive-jitter.js:87-88` says overflow does not grow memory. The overflow branch evicts
  nothing, and while the head is present it does not move it either: the numbers of frames that can be
  held are exactly those up to `4 * max + 1` (`JitterRuns.ReachableSizes`, reached by
  `JitterRuns.BurstHeld`), and `Jitter.PushSize` says what each push adds.
- `transport/adaptive-jitter.js:19-21` announces a re-hold when the target grows after the start. Only a
  jump takes a started buffer back to the start (`JitterTiming.OnlyJumpUnstarts`); without one every
  later head plays at once, whatever the target (`JitterTiming.StartedPlaysAtOnce`), as in the run of
  `JitterTiming.RaisedTargetDoesNotHold`.
- `transport/adaptive-jitter.js:108-109` says the pre-buffer is held up to a deadline. A jump during a hold
  does not begin a new one, so the new head can play with nothing behind it: exactly when is
  `JitterTiming.FullHoldIff`, a run is `JitterTiming.JumpCutsHold`.
- `transport/adaptive-jitter.js:39` calls `maxHoldMs` a wait for a late packet. The wait is counted in
  pulls, `frameMs` for each (`JitterTiming.ConcealedOnExactPull`), and every datagram pulls. The packet is
  waited for that long exactly if the pull that gives it up comes that long after the first that missed it
  (`JitterTiming.HeldInTimeIff`); pulls a frame apart hold it, up to rounding (`JitterTiming.SpacedPullsHold`),
  and enough datagrams in one millisecond give up a packet that is merely late, without any wait
  (`JitterTiming.GivenUpInAnInstant`, `JitterTiming.LatePacketGivenUpAtOnce`).
- `transport/adaptive-jitter.js:143-144` says ticks bring the target back to the baseline. They end the
  loss penalty, but the jitter average only approaches zero: after a long enough quiet stretch the target
  is back at the baseline exactly if the timestamps before it never deviated from `frameMs` a packet
  (`JitterTiming.BackToBaselineIff`). One packet stamped a millisecond late keeps the target one frame above
  (`JitterTiming.OneLateMillisecond`).
- `www/surface-core.js:136-138` says a rejected replacement leaves the good asset in place. It does exactly
  if no chunk of that upload was accepted before (`SurfaceRuns.OldAssetSurvivesIff`); a run that loses the
  asset is `SurfaceRuns.AssetLostToRefusal`.
- `www/surface-core.js:169` refuses a widget type until its assets exist. Nothing keeps them there:
  `SurfaceRuns.DepsLostIff` says exactly which ops lose one, `SurfaceRuns.DepCanVanish` gives a run.
- `www/surface-core.js:81-90` joins texts decoded chunk by chunk. Decoding a
  chunk apart is right whatever follows it exactly when it ends on a character (`Utf8.ChunkSafeIff`). A cut
  character goes wrong in `Utf8.CutCharacterGarbled`; with another continuation a cut can come out right
  (`Utf8.CutCharacterByLuck`).
- `AgentChannelPlugin.java:1189` calls the partition buffer unbounded; `trimBuffer` bounds it, and can drop
  the very frame just added. Without a socket and before a failure is on record a frame is not buffered but
  lost (`Partition.OfferedIsKeptIff`).
  Buffered frames are also lost without being trimmed when a keepalive ping outruns them by a replay
  window (`PartitionRuns.AcceptedIffNoFarPing`, `PartitionLoss.PingOutrunsBuffer`).
- `AgentChannelPlugin.java:951-954` lets an authenticated frame clear the failures. The keepalive counts them
  up in two steps, so a frame in between is forgotten and the phone goes on buffering
  (`PartitionRuns.StaleWrite`); without such a frame the count is exact (`PartitionRuns.FailuresAddUp`).
- `transport/udp-media.js:9-14` gives UDP its own stream. The receiver checks neither the stream nor the type
  of what it opens, and every command, being JSON that begins with its number, looks like media with one and
  the same sequence number (`CommandAsMedia.CommandLooksLikeMedia`). Carried to the UDP socket, commands
  play and are then refused on the WebSocket (`CommandAsMedia.CommandPlaysAsMedia`), and from then on
  all real audio with a lower number, months of it counting from zero, is late (`CommandAsMedia.DeafForever`).
- `gateway.js:27-29` names a client by the fingerprint of its key, eight hexadecimal digits
  (`proto.js:63-67`). Another allowed key of the same fingerprint takes the name over, even
  from a live session (`GatewayTakeover.SameFingerprintTakesOver`, `GatewayTakeover.TakenOverIsNotClients`);
  as long as no such key is presented nobody does (`GatewayTakeover.NoTakeoverByName`).
- `KoCrypto.java:296-299` promises that replays are refused. `open` holds no lock between the window's check
  and its mark, and two threads call it, so one message can be handed up twice
  (`OpenRaces.HandedOnceIff`, `OpenRaces.OneMessageTwice`), and a late mark can cost another message:
  exactly when is `OpenRaces.StepCostsIff`, a run is `OpenRaces.LateMarkRefusesAnother`.
- `AgentChannelPlugin.java:1006` loses a frame when the socket is gone and leaves its bytes in the
  count. The losses add up over flushes (`Partition.LossesAddUp`) until one empties the buffer
  (`Partition.CounterExactIff`).

## Assumptions about cryptography

`Primitives.Aead.Sound` states what ChaCha20-Poly1305 promises (section 2.8 of RFC 8439) and
`Primitives.Curve.Commutes` what X25519 promises (section 6.1 of RFC 7748); both are satisfiable
(`Primitives.SoundAeadExists`, `Primitives.CommutingCurveExists`). HKDF (section 2 of RFC 5869) and HMAC
outputs are symbolic values, so equal outputs mean equal inputs. That nobody without the key makes a box
that opens (`Network.Unforged`), or a MAC under a key only two identities can derive
(`HandshakeRuns.Presentable`), is a condition on the attacker's steps. No lemma is assumed.

## Model

| member | source | states |
|---|---|---|
| `Replay.ReplayWindow.constructor` | proto.js:103-107 | a fresh ring agrees with the empty set of accepted counters |
| `Replay.ReplayWindow.Accepts` | proto.js:109-114 | the ring answers as the plain set does: new, non-negative and less than `size` behind the maximum |
| `Replay.ReplayWindow.Mark` | proto.js:115-123 | after lazy clearing of the slots passed over, the ring still agrees with the set, now with the counter |
| `Replay.OfferedExact` | proto.js:102-124 | after any run of guarded marks the window holds exactly the accepted counters, and its maximum is the highest counter offered |
| `Replay.NeverAcceptedTwice` | proto.js:102-124 | no counter is accepted at two places of a run |
| `Replay.AcceptedIffNotOvertaken` | proto.js:109-123 | without repeats, an offer is accepted if and only if no earlier one is a window or more ahead |
| `Frames.NonceRoundTrip` | proto.js:128-140 | a nonce parses back to its stream and counter if and only if the counter is at most 2^53 - 1 |
| `Frames.NonceCanonical` | proto.js:135-140 | one stream and counter have one nonce, so a parsed nonce is the one the sender builds |
| `Frames.UnpackPack` | transport/wsframes.js:12-28 | unpacking gives back type, nonce, tag and ciphertext |
| `Frames.PackUnpack` | transport/wsframes.js:19-28 | unpacking loses nothing: repacking gives the same bytes |
| `Frames.AudioRoundTrip` | transport/wsframes.js:31-43 | an encodable audio record survives packing and unpacking |
| `Frames.MediaRoundTrip` | transport/udp-media.js:136-142 | the 13-byte media header and the Opus bytes survive the receiver's parsing |
| `Frames.MediaCanonical` | transport/udp-media.js:76-80 | a media plaintext that parses is the one encoding of what it parses to |
| `WireBuffers.PutNumber` | android/app/src/main/java/com/agentmobile/agent/UdpMedia.java:112-114 | writing a number in place replaces exactly its bytes, big-endian |
| `WireBuffers.WriteNonce` | android/app/src/main/java/com/agentmobile/agent/KoCrypto.java:320-325 | the byte loop writes the same nonce as the JavaScript twin |
| `WireBuffers.FillAudio` | transport/wsframes.js:31-37 | the filled buffer is the packed record, refused exactly when a field does not fit |
| `WireBuffers.FillMedia` | transport/udp-media.js:138-142 | the filled buffer is the media plaintext, refused exactly when a field does not fit |
| `WireBuffers.FillWire` | transport/udp-media.js:144-148 | the UDP datagram is the same layout the WebSocket path packs |
| `WireBuffers.TakeApart` | transport/wsframes.js:19-28 | the moving offset yields the four fields, refused exactly below the header length |
| `Channels.Channel.constructor` | proto.js:172-179 | counters at zero and one fresh, unshared window per stream |
| `Channels.Channel.Send` | proto.js:192-201 | the whole new state and frame or exception: the stream's counter used once, both error cases unchanged |
| `Channels.Channel.RecvBytes` | proto.js:205-220 | window first, decryption second, mark last; which rejection counter moves, and that nothing else does |
| `Channels.ChannelStepsKeepKeys` | proto.js:192-220 | no send or receive changes keys or breaks the channel's form |
| `Channels.DecryptedIsFrameOf` | proto.js:152-167 | a frame that decrypts is byte for byte the frame of one sealed message |
| `Channels.FrameOfDecrypts` | proto.js:142-167 | the receiver reads back the stream, counter and plaintext the sender sealed |
| `Channels.FrameOfReceived` | proto.js:205-220 | receiving the frame of a sealed message: the window of its stream alone decides, and what changes |
| `Channels.SentIsReceived` | proto.js:192-220 | whatever one end sends next the other opens, however much was lost before, unless the stream does not exist or has no counter left |
| `OpenRaces.GuardedMarksAgree` | android/app/src/main/java/com/agentmobile/agent/KoCrypto.java:249-267 | marks of counters still within reach keep the ring and the plain set in agreement |
| `OpenRaces.HandedOnceIff` | android/app/src/main/java/com/agentmobile/agent/KoCrypto.java:300-317 | over every interleaving of check and mark, nothing is handed up twice if and only if no genuine frame passes while a call for its counter is under way |
| `OpenRaces.OneMessageTwice` | android/app/src/main/java/com/agentmobile/agent/KoCrypto.java:300-317 | the interleaving of two threads that hands one message up twice |
| `OpenRaces.LateMarkRefusesAnother` | android/app/src/main/java/com/agentmobile/agent/KoCrypto.java:259-267 | a run in which a late mark makes the window refuse a new message that was never handed up |
| `OpenRaces.MarkCostsIff` | android/app/src/main/java/com/agentmobile/agent/KoCrypto.java:249-267 | a mark costs another message its acceptance if and only if the marked counter had fallen out of reach and shares a slot with that message, which is no new maximum |
| `OpenRaces.StepCostsIff` | android/app/src/main/java/com/agentmobile/agent/KoCrypto.java:300-317 | over every step of the threads, a message not handed up and still in reach is lost to it if and only if it finishes a genuine frame that fell out of reach, in that message's slot |
| `Network.StepKeepsInv` | proto.js:192-220 | every send and every delivery, forged ones included, keeps sent, accepted and handed-up messages in step |
| `Network.DeliveredWasSentOnce` | proto.js:192-220 | over every run, whatever is handed up was sealed by the peer as such, and no sealed message is handed up twice |
| `Network.IntactDelivery` | proto.js:205-220 | in every reachable state an intact sealed message is handed up if and only if it is new and less than a window behind |
| `Network.AlwaysInStep` | proto.js:192-220 | in every reachable state the next counter of each end, on every stream, is new to the other |
| `Network.NextIsDelivered` | proto.js:192-220 | in every reachable state a message sent next and delivered next is handed up as it was sent |
| `Network.DeliveriesAccounted` | proto.js:205-220 | every wire message that arrives is handed up, counted as replay, counted as forgery, or was no frame |
| `Network.HonestNetworkForgesNothing` | proto.js:205-220 | on a network that only drops, duplicates and reorders, nothing counts as forged: what is not handed up is counted as replay |
| `SecretOrder.SortSorts` | proto.js:84-84 | the sort yields a sorted permutation |
| `SecretOrder.SortCanonical` | proto.js:82-85 | two arrangements of the same secrets sort to the same list |
| `Handshake.LenPrefixedInjective` | proto.js:232-235 | length prefixes make a list of fields readable from the bytes alone |
| `Handshake.TranscriptInjective` | proto.js:237-243 | one transcript, one quadruple of public keys |
| `Handshake.MacsSeparate` | proto.js:185-189 | equal MACs mean one key and one transcript, and a server MAC is never a client confirm |
| `Handshake.IkmAgrees` | proto.js:77-86 | both sides derive the same keying material from mirror-image secrets |
| `Handshake.IkmIsFourSecrets` | proto.js:77-86 | the keying material is made of all four secrets: it is equal if and only if they are, in any order |
| `Handshake.CompletedMeansAgreement` | proto.js:266-317 | whatever an attacker did in between, completing means the same four public keys and mirrored session keys |
| `Handshake.HonestHelloAccepted` | proto.js:266-283 | an allowed client's own hello is accepted if and only if the key agreement works |
| `Handshake.HonestHandshakeCompletes` | proto.js:254-317 | undisturbed, both sides complete with one session if and only if the key agreement works |
| `Handshake.HelloAcceptedIff` | proto.js:266-283 | exactly which hellos are accepted, and that what is noted of the client is what the hello says |
| `Handshake.ReplyAcceptedIff` | proto.js:289-308 | of all replies under a server's keys a client accepts exactly the one that server makes of its hello, if the key is the one pinned |
| `Handshake.ConfirmAcceptedIff` | proto.js:311-317 | of all confirms a server accepts exactly the one the client makes of its reply |
| `HandshakeRuns.ReplyHasOrigin` | proto.js:289-308 | a reply a client accepts under the server's key came from a matching server session |
| `HandshakeRuns.ConfirmHasOrigin` | proto.js:311-317 | a confirm a server verifies for the client's key came from a matching client session |
| `HandshakeRuns.MutualAuthentication` | proto.js:266-317 | over every attacked run, finished client sessions and confirmed server sessions match one to one |
| `HandshakeRuns.HonestRun` | proto.js:254-317 | an undisturbed run ends with a finished and a confirmed session that match, so the theorem speaks of sessions that exist |
| `HttpGateway.Gateway.OnHello` | gateway.js:91-103 | a hello is answered if and only if the handshake accepts it and there is room; it leaves every live channel in place, and refusals change nothing |
| `HttpGateway.Gateway.OnConfirm` | gateway.js:104-111 | only a verified confirm makes the pending channel of that client live; anything else changes nothing |
| `HttpGateway.Gateway.OnMsg` | gateway.js:112-123 | a message changes only the live channel of its own client, whether or not it opened |
| `HttpGateway.HandleKeepsBound` | gateway.js:95-95 | no request takes the sessions over MAX_SESSIONS |
| `HttpGateway.OnlyConfirmGoesLive` | gateway.js:91-123 | what one request may change of one client's session, by kind of request |
| `HttpGateway.LiveChannelsAreProven` | gateway.js:91-123 | over every run a live channel was proven by a confirm for the then latest hello of that client |
| `GatewayAnswers.HelloAnsweredIff` | gateway.js:91-103 | from any session map, a hello is answered, and its handshake pending, if and only if it is accepted and its client is known or the map not full |
| `GatewayAnswers.HonestClientConnects` | gateway.js:91-111 | from any run with room, an allowed client's hello and confirm, with any requests in between that are no hello or confirm under its name, leave a live channel that is the other end of its own |
| `GatewayAnswers.LiveIffProven` | gateway.js:91-111 | over every run a name is live if and only if some confirm proved the then latest hello under it |
| `GatewayAnswers.MessageStatus` | gateway.js:112-123 | over every run, exactly which messages are answered with 401, 403 (and counted), 500 or a reply |
| `GatewayAnswers.MessageAnswered` | gateway.js:112-123 | a connected client opens the reply to the agent's answer to what it sent, and both ends stay connected |
| `GatewayAnswers.ConversationAnswered` | gateway.js:178-183 | over a conversation of any length the i-th reply opens to the answer to the i-th payload |
| `GatewayTakeover.LiveChannelIsClientsIff` | gateway.js:24-30 | over every run and every attacked world of handshakes, a live channel is a session of the client if and only if its confirmed hello carried the client's own key |
| `GatewayTakeover.NoTakeoverByName` | gateway.js:27-29 | over every run whose hellos bring no other allowed key of the client's fingerprint, a live channel under its name is the client's |
| `GatewayTakeover.SameFingerprintTakesOver` | gateway.js:91-111 | whatever happened before and whoever is live under the name, an allowed key of the same fingerprint puts its own channel there with two requests |
| `GatewayTakeover.TakenOverIsNotClients` | proto.js:63-67 | in every attacked world the client holds no session on that channel |
| `WsGateway.Connection.Receive` | transport/ws-gateway.js:40-84 | the whole new connection state and answers; before authentication nothing is opened and only a verified confirm makes the pending channel live |
| `WsGateway.Connection.Route` | transport/ws-gateway.js:85-114 | the new state and answers for each type of opened message, malformed ones included; a ping draws one pong frame and the counters move for their own types only |
| `WsGateway.MessageStep` | transport/ws-gateway.js:40-78 | a channel becomes live only from the pending handshake, behind a confirm that verifies, and keeps its keys from then on |
| `WsGateway.NothingOpenedBeforeConfirm` | transport/ws-gateway.js:35-78 | over every run, nothing is opened before a verified confirm, and a connection authenticates once |
| `WsAnswers.PingDrawsPong` | transport/ws-gateway.js:85-86 | what a client sends as a ping draws exactly one frame, which it opens as an empty pong |
| `WsAnswers.CommandDrawsEcho` | transport/ws-gateway.js:87-91 | a command draws exactly its echo, as the client opens it, or nothing if it is not JSON |
| `WsAnswers.AudioLoopsBackIff` | transport/ws-gateway.js:92-111 | audio comes back unchanged if and only if loopback is on and it is audio |
| `WsAnswers.HonestClientConnects` | transport/ws-gateway.js:40-78 | an allowed client's hello is answered, and its confirm makes the other end of its channel live |
| `WsAnswers.CountersAreExact` | transport/ws-gateway.js:79-114 | over every run commands, gap notices and audio numbers are those of exactly the messages the channel opened, in order |
| `WsAnswers.ClosesIff` | transport/ws-gateway.js:41-75 | a connection is closed, with the reason, exactly for a refused hello or anything but a verifying confirm after one; a good hello is answered |
| `WsAnswers.RejectedCountsCloses` | transport/ws-gateway.js:41-75 | over every run the rejections counted are the closes |
| `Jitter.JitterBuffer.constructor` | transport/adaptive-jitter.js:35-59 | the initial state |
| `Jitter.JitterBuffer.Push` | transport/adaptive-jitter.js:61-101 | the whole new state, late drops included |
| `Jitter.JitterBuffer.NoteArrival` | transport/adaptive-jitter.js:67-83 | the loss and jitter statistics an accepted packet leaves; the penalty grows by the packets lost, up to ten |
| `Jitter.JitterBuffer.Bound` | transport/adaptive-jitter.js:89-97 | jump to the live edge, or skip a missing head, or neither |
| `Jitter.JitterBuffer.DeleteBelow` | transport/adaptive-jitter.js:91-91 | exactly the older frames go |
| `Jitter.JitterBuffer.LowestKey` | transport/adaptive-jitter.js:94-94 | the least buffered sequence number |
| `Jitter.JitterBuffer.Pull` | transport/adaptive-jitter.js:103-141 | the whole new state and the output: gate, frame, late wait or concealment |
| `Jitter.JitterBuffer.RunAhead` | transport/adaptive-jitter.js:152-156 | the exact length of the run of frames from the head on |
| `Jitter.JitterBuffer.Tick` | transport/adaptive-jitter.js:145-150 | the loss penalty ends when its timer does |
| `Jitter.PushKeepsInv` | transport/adaptive-jitter.js:85-97 | after a push buffered frames lie in the 4 * max + 1 positions from the head, only the head is waited for, an unstarted buffer holds its head |
| `Jitter.PullKeepsInv` | transport/adaptive-jitter.js:103-141 | the same after a pull |
| `Jitter.BufferBounded` | transport/adaptive-jitter.js:87-97 | at most 4 * max + 1 frames are held |
| `Jitter.PushSize` | transport/adaptive-jitter.js:61-97 | the exact effect of any push on the number of frames held |
| `Jitter.JumpLeavesOnlyNewest` | transport/adaptive-jitter.js:89-92 | a jump leaves exactly the packet that caused it and counts all others dropped |
| `JitterRuns.ReachableInv` | transport/adaptive-jitter.js:61-150 | every reachable state satisfies the invariant and the bound |
| `JitterRuns.BurstHeld` | transport/adaptive-jitter.js:85-97 | a burst of n packets up to 4 * max + 1 is held whole, with the first as the head |
| `JitterRuns.ReachableSizes` | transport/adaptive-jitter.js:85-97 | a number of frames can be held if and only if it is at most 4 * max + 1 |
| `JitterRuns.HeadAfterPush` | transport/adaptive-jitter.js:86-97 | a packet that is not late leaves the head where it was, or at itself after a jump, or at the lowest packet held if the limit is exceeded |
| `JitterRuns.PlayoutAccounted` | transport/adaptive-jitter.js:61-141 | outputs strictly increase, and next - first = real + concealed + skipped positions, each position once |
| `JitterRuns.RealIsLastPushed` | transport/adaptive-jitter.js:85-125 | a real output is the packet last pushed under its sequence number |
| `JitterRuns.ConcealedWasNeverPushed` | transport/adaptive-jitter.js:103-141 | over every run an output is concealed if and only if no packet of its number was ever pushed |
| `JitterRuns.FramesConserved` | transport/adaptive-jitter.js:61-141 | every pushed frame is dropped, overwritten, played or buffered; what droppedLate really counts |
| `JitterRuns.LostNeverUnderReports` | transport/adaptive-jitter.js:76-86 | lost is at least the number of packets never accepted in between, exactly that when accepted in order |
| `JitterTiming.ConcealedOnExactPull` | transport/adaptive-jitter.js:128-140 | a missing head is concealed on exactly pull floor(maxHoldMs / frameMs) + 1 that finds it missing |
| `JitterTiming.HeldInTimeIff` | transport/adaptive-jitter.js:128-140 | a missing head is given up at the time of that pull and not before, so it is waited for maxHoldMs if and only if that pull comes maxHoldMs after the first that missed it |
| `JitterTiming.SpacedPullsHold` | transport/adaptive-jitter.js:39-39 | pulls at least a frame apart hold a missing head for maxHoldMs rounded down to frames |
| `JitterTiming.GivenUpInAnInstant` | transport/udp-media.js:101-101 | enough pulls at one time give up any missing head at that time, one fewer do not |
| `JitterTiming.LatePacketGivenUpAtOnce` | transport/udp-media.js:97-102 | a run from the start in which five pulls of one millisecond give up a late packet |
| `JitterTiming.OnlyJumpUnstarts` | transport/adaptive-jitter.js:89-92 | a started buffer goes back to the start if and only if a push jumps, and then with no hold under way |
| `JitterTiming.StartedPlaysAtOnce` | transport/adaptive-jitter.js:107-126 | once started and until a jump, every pull that finds its head plays it, whatever the target |
| `JitterTiming.RaisedTargetDoesNotHold` | transport/adaptive-jitter.js:99-126 | a run whose target rises above the buffered depth while the head still plays at once |
| `JitterTiming.StartHeldExactly` | transport/adaptive-jitter.js:107-126 | a start, jumps and all, is held until the pre-buffer is full or reholdMs after the first pull that found any packet, and then plays the head |
| `JitterTiming.FullHoldIff` | transport/adaptive-jitter.js:89-119 | the head a jump makes gets its own full hold if and only if no hold was under way, or one frame is a full pre-buffer |
| `JitterTiming.JumpCutsHold` | transport/adaptive-jitter.js:89-119 | a run in which a jump during a hold plays a packet on the first pull that finds it |
| `JitterTiming.DrainBounded` | transport/udp-media.js:125-133 | a drain emits at most one output more than was buffered, conceals at most once and only first, in consecutive order |
| `JitterTiming.DrainDivergesIff` | transport/udp-media.js:128-132 | the drain loop runs for ever if and only if frames are longer than the hold and the first pull yields |
| `JitterTiming.TargetInRange` | transport/adaptive-jitter.js:99-100 | the target stays between baseline and maximum |
| `JitterTiming.JitterWithinSpikes` | transport/adaptive-jitter.js:67-74 | the jitter average never exceeds the largest spike seen |
| `JitterTiming.DecayedBelow` | transport/adaptive-jitter.js:71-73 | 3 * average / frameMs quiet packets bring the average below one frame, never to zero |
| `JitterTiming.TargetSettles` | transport/adaptive-jitter.js:99-150 | after any burst, one tick and that many steady packets settle the target at the baseline or one above |
| `JitterTiming.NoJitterIff` | transport/adaptive-jitter.js:67-74 | over every run the average is zero if and only if the timestamps of the packets it observed never deviated |
| `JitterTiming.BackToBaselineIff` | transport/adaptive-jitter.js:143-150 | after any run, a tick and enough steady packets, the target is the baseline if and only if no timestamp of that run deviated, and one above otherwise, if the limit allows |
| `JitterTiming.OneLateMillisecond` | transport/adaptive-jitter.js:143-150 | a run with one packet stamped a millisecond late whose target settles at 7 |
| `JitterTarget.PenaltyIsRecentLoss` | transport/adaptive-jitter.js:76-81 | over every run the loss penalty is the number of packets lost since the last tick, at most ten |
| `JitterTarget.JitterIsWeighted` | transport/adaptive-jitter.js:67-74 | over every run the average is the weighted sum of the packets' deviations from schedule: the first that is not zero in full, later ones a quarter, each losing a quarter per packet |
| `JitterTarget.TargetAfterPacket` | transport/adaptive-jitter.js:99-100 | after every accepted packet the target is the baseline, the fewest frames covering that sum and the packets lost since the last tick, within the limit |
| `JitterTarget.TargetKept` | transport/adaptive-jitter.js:99-150 | nothing else moves the target or the average: no late packet, no pull and no tick |
| `JitterTarget.OneLostPacket` | transport/adaptive-jitter.js:76-150 | a run in which one lost packet raises the target by one until the first packet after the next tick |
| `UdpMedia.MediaReceiver.constructor` | transport/udp-media.js:33-46 | no buffer, no peer, nothing heard |
| `UdpMedia.MediaReceiver.Pump` | transport/udp-media.js:125-133 | the loop ends and hands out exactly the drain's outputs, each with its kind, number, time and audio, a concealed one with none and under the latest kind |
| `UdpMedia.MediaReceiver.OnFrame` | transport/udp-media.js:97-102 | create the buffer if need be, push, pump, report |
| `UdpMedia.MediaReceiver.OnProbe` | transport/udp-media.js:91-121 | the acknowledgement echoes the probe's number; a refused send changes nothing |
| `UdpMedia.MediaReceiver.OpenDatagram` | transport/udp-media.js:70-75 | junk, forged and replayed datagrams give nothing and change only the channel's counters |
| `UdpMedia.MediaReceiver.Dispatch` | transport/udp-media.js:84-102 | the reply peer follows authenticated senders; probes never reach the buffer |
| `UdpMedia.MediaReceiver.Receive` | transport/udp-media.js:66-103 | the whole new receiver state and its events, in every branch |
| `UdpMedia.MediaReceiver.TickSecond` | transport/udp-media.js:59-59 | once a second the buffer ticks, if there is one |
| `UdpMedia.DatagramKeepsConsistent` | transport/udp-media.js:66-103 | after any datagram the buffer is that of its own history and all it was fed came out of the channel |
| `UdpMedia.DrainIsPulls` | transport/udp-media.js:125-133 | a drain is a run of pulls, so the run theorems apply to it |
| `MediaRuns.StepKeepsSystem` | transport/udp-media.js:66-121 | receiver and network end move together through datagrams, probe answers and the channel's other uses |
| `MediaRuns.PlayedWasSealedByPeer` | transport/udp-media.js:66-133 | over every run on the attacked network, what plays for real is a plaintext the peer sealed with that kind, number, time and audio, in increasing order, and sealed as a UDP audio message if the peer keeps media plaintexts apart |
| `MediaRuns.TakesOnlyMediaIff` | transport/udp-media.js:70-100 | in every reachable state only UDP audio messages can reach the jitter buffer next if and only if every message still acceptable that looks like media is one |
| `CommandAsMedia.CommandLooksLikeMedia` | android/app/src/main/java/com/agentmobile/agent/AgentChannelPlugin.java:240-241 | the text of every command parses as media, always with one sequence number |
| `CommandAsMedia.CommandPlaysAsMedia` | transport/udp-media.js:70-102 | a run in which the peer seals only commands on the WebSocket stream, the receiver plays one, both are refused afterwards, and the playout has moved past their number |
| `CommandAsMedia.DeafForever` | transport/adaptive-jitter.js:61-66 | however a run goes on from there with audio below that number, none of it plays and all of it is dropped as late |
| `MediaRuns.ReplyAddressIsAuthentic` | transport/udp-media.js:81-87 | the reply address moves only with a datagram that carries a message of the peer's never handed up before |
| `MediaEvents.FramesHandedOut` | transport/udp-media.js:125-133 | over every run on the attacked network each frame event carries kind, number, time and audio of a plaintext the peer sealed, or is a concealment of a packet that never came, of the newest kind and without audio; one per output, in order |
| `MediaEvents.NewestIsNoted` | transport/udp-media.js:98-99 | over every run the noted kind and time are those of the newest frame |
| `MediaEvents.EventsOfDatagram` | transport/udp-media.js:66-103 | exactly which datagrams are reported as not opening, as a new reply address, as a frame or as a probe |
| `MediaEvents.ProbeIsAcknowledged` | transport/udp-media.js:91-121 | what a prober sends next is acknowledged to where it came from, and the prober opens a probe with its own number |
| `MediaEvents.FrameIsTaken` | transport/udp-media.js:66-103 | what a peer sends next as a frame is reported and buffered as sent, and replies go to where it came from |
| `Base64Size.EncodeShape` | www/surface-core.js:37-44 | the length, padding and absence of whitespace of every base64 encoding |
| `Base64Size.ChargeIsDecodedSize` | www/surface-core.js:37-44 | the storage charge is the exact byte count, wherever whitespace is inserted |
| `Utf8.DecodeLoop` | www/surface-core.js:55-62 | the index loop, with reads past the end, decodes character by character |
| `Utf8.DecodeEncode` | www/surface-core.js:55-62 | the decoder inverts section 3 of RFC 3629 on every string of the basic multilingual plane |
| `Utf8.ChunkSafeIff` | www/surface-core.js:84-90 | decoding a chunk apart from what follows is harmless if and only if it ends where a character does |
| `Utf8.EncodedEndsOnCharacter` | www/surface-core.js:55-62 | every encoded text ends on a character, so pieces cut between characters are safe |
| `Utf8.ChunksDecodeToWhole` | www/surface-core.js:84-90 | chunks that end on characters decode to the text of the whole |
| `Utf8.CutCharacterGarbled` | www/surface-core.js:84-90 | a character cut in two comes out as two wrong ones |
| `Utf8.CutCharacterByLuck` | www/surface-core.js:84-90 | a cut that decodes to the text of the whole, so the rule is for all continuations and not for each |
| `Surface.SurfaceCore.constructor` | www/surface-core.js:21-33 | the empty store |
| `Surface.SurfaceCore.AbortUpload` | www/surface-core.js:117-123 | what arrived is dropped and credited back, the name poisoned, the reason reported |
| `Surface.SurfaceCore.FinishAsset` | www/surface-core.js:65-71 | the pending upload becomes the asset |
| `Surface.SurfaceCore.Register` | www/surface-core.js:114-152 | the whole new store and event of one chunk, each refusal in its order |
| `Surface.SurfaceCore.Unregister` | www/surface-core.js:153-163 | asset, upload and poison go, their bytes are freed and reported |
| `Surface.SurfaceCore.ApplyOp` | www/surface-core.js:112-215 | the new store and the events of every kind of op, and an empty event list left behind; what is published or updated reaches the host if the widget is there, and fails under its key otherwise |
| `SurfaceRuns.UsageExact` | www/surface-core.js:114-163 | in every reachable state usage equals the bytes stored and is within the cap; no name is complete and pending |
| `SurfaceRuns.UnregisterFreesExactly` | www/surface-core.js:153-163 | exactly the name's bytes are freed; the clamp at zero never binds |
| `SurfaceRuns.AssetsAfterRegister` | www/surface-core.js:114-151 | a refused chunk leaves every complete asset, an accepted first one takes the old asset, a last one puts the new |
| `SurfaceRuns.OtherNamesUntouched` | www/surface-core.js:112-215 | an op on one name leaves every other name's assets, uploads and poison |
| `SurfaceRuns.ReadyAssetIsItsChunks` | www/surface-core.js:114-152 | a numbered asset that becomes ready is exactly chunks 0 to n in order, the last n + 1 ops on its name, with its exact size |
| `SurfaceRuns.PoisonHolds` | www/surface-core.js:117-127 | after an abort nothing under the name becomes ready or is stored until chunk 0 or unregister |
| `SurfaceRuns.OldAssetSurvivesIff` | www/surface-core.js:136-145 | through a replacement that does not complete the old asset survives, unchanged, if and only if none of its chunks was accepted |
| `SurfaceRuns.AssetLostToRefusal` | www/surface-core.js:129-145 | a run in which a refused chunk leaves the name without its good asset |
| `SurfaceRuns.DepsLostIff` | www/surface-core.js:164-174 | exactly which ops leave a registered type without one of its assets |
| `SurfaceRuns.DepCanVanish` | www/surface-core.js:153-174 | a run in which a type survives its only asset |
| `SurfaceRuns.WidgetsAccumulate` | www/surface-core.js:105-202 | over every run a widget is live exactly if added with a registered type and not removed since, and each property has its last value |
| `SurfaceEvents.TypesAccumulate` | www/surface-core.js:164-174 | over every run the types there are, with code and dependencies, are those last registered with no dependency missing |
| `SurfaceEvents.LiveWidgetsHear` | www/surface-core.js:184-202 | over every run, data, an update or a removal emits its one event if and only if the widget is live by the op history |
| `SurfaceEvents.RegisteredTypesRender` | www/surface-core.js:175-211 | over every run a widget is rendered, or tried out, if and only if its type is registered by the op history |
| `SurfaceEvents.RegistrationAnswered` | www/surface-core.js:164-174 | a registration is announced, or refused for the first dependency that is not there |
| `SurfaceEvents.EveryOpAnswered` | www/surface-core.js:112-215 | over every run each op emits exactly one event about its own name or key, except for a chunk with more to come and the removal of nothing; a failure outside uploads changes nothing |
| `SurfaceEvents.ReplayShowsWidgets` | www/surface-core.js:175-202 | over every run, replaying the events yields exactly the store's widgets with their properties |
| `SurfaceEvents.AssetHasFirstType` | www/surface-core.js:145-148 | over every run an asset has the type of its upload's first chunk, or the default |
| `SurfaceEvents.LastOpDecides` | www/surface-core.js:114-163 | over every run the last op on a name decides whether it is poisoned, pending or complete |
| `SurfaceEvents.UploadCompletesIff` | www/surface-core.js:114-152 | from any store the numbered chunks of an upload, sent without a break, finish it if and only if none is empty and the whole fits |
| `SurfaceRuns.SourceIsText` | www/surface-core.js:49-90 | an asset uploaded as base64 of the pieces of a text has that text as its source, through a TextDecoder for portable pieces and through the loop for any |
| `Partition.PartitionBuffer.TrimBuffer` | android/app/src/main/java/com/agentmobile/agent/AgentChannelPlugin.java:1018-1030 | no frame is dropped needlessly and the byte counter moves with the buffer, even where it was off |
| `Partition.PartitionBuffer.TrimAudio` | android/app/src/main/java/com/agentmobile/agent/AgentChannelPlugin.java:1021-1025 | the iterator pass removes the oldest audio frames, as many as needed |
| `Partition.PartitionBuffer.Outbound` | android/app/src/main/java/com/agentmobile/agent/AgentChannelPlugin.java:1012-1015 | buffer and trim during a failure, otherwise send at once if there is a socket |
| `Partition.PartitionBuffer.Flush` | android/app/src/main/java/com/agentmobile/agent/AgentChannelPlugin.java:1004-1009 | with a socket everything goes out in order and the counter is exact; without one the oldest frame is lost, and again on the next flush |
| `Partition.PartitionBuffer.OnAuthenticated` | android/app/src/main/java/com/agentmobile/agent/AgentChannelPlugin.java:952-955 | the whole new state, with and without a socket: the failure count clears and the buffer is flushed if there was one |
| `Partition.TrimKeepsOrder` | android/app/src/main/java/com/agentmobile/agent/AgentChannelPlugin.java:1018-1030 | survivors fit and keep their order; a buffer that fits loses nothing; if the counter alone is over the cap, nothing survives |
| `Partition.TrimPrefersCommands` | android/app/src/main/java/com/agentmobile/agent/AgentChannelPlugin.java:91-93 | all non-audio and the newest audio survive, unless the non-audio alone is too much |
| `Partition.TrimUnique` | android/app/src/main/java/com/agentmobile/agent/AgentChannelPlugin.java:1018-1030 | the trimming promise determines the result |
| `Partition.NewestSurvivesIff` | android/app/src/main/java/com/agentmobile/agent/AgentChannelPlugin.java:1018-1030 | the frame just added survives the trim if and only if it fits, together with all non-audio if it is audio |
| `Partition.OfferedIsKeptIff` | android/app/src/main/java/com/agentmobile/agent/AgentChannelPlugin.java:1012-1015 | exactly when a frame given to outbound is sent, is kept, or is lost at once |
| `Partition.LossesAddUp` | android/app/src/main/java/com/agentmobile/agent/AgentChannelPlugin.java:1004-1009 | k flushes without a socket lose exactly the k oldest frames and leave exactly their bytes in the counter, until the buffer is empty |
| `Partition.CounterExactIff` | android/app/src/main/java/com/agentmobile/agent/AgentChannelPlugin.java:1004-1009 | after k of them the counter is exact if and only if k is 0 or they emptied the buffer |
| `PartitionRuns.NoneStrandedStep` | android/app/src/main/java/com/agentmobile/agent/AgentChannelPlugin.java:953-955 | every step keeps frames buffered only while a failure is on record or about to be flushed |
| `PartitionRuns.ConservedStep` | android/app/src/main/java/com/agentmobile/agent/AgentChannelPlugin.java:1004-1030 | every step keeps wire plus buffer equal to what was enqueued minus what was trimmed |
| `PartitionRuns.OrderAndNoLoss` | android/app/src/main/java/com/agentmobile/agent/AgentChannelPlugin.java:940-1030 | over every interleaving: order kept, nothing twice, missing only if trimmed or still buffered |
| `PartitionRuns.AuthenticatedLeads` | android/app/src/main/java/com/agentmobile/agent/AgentChannelPlugin.java:952-955 | the buffer's flush on an authenticated frame is the run that enters, clears the count, flushes frame by frame and leaves |
| `PartitionRuns.FailuresAddUp` | android/app/src/main/java/com/agentmobile/agent/AgentChannelPlugin.java:1350-1350 | without an authenticated frame the failure count grows by exactly the failed probes, over every interleaving |
| `PartitionRuns.StaleWrite` | android/app/src/main/java/com/agentmobile/agent/AgentChannelPlugin.java:1350-1350 | a run in which an authenticated frame between the count's read and write is forgotten |
| `PartitionRuns.PeerAcceptsIff` | android/app/src/main/java/com/agentmobile/agent/AgentChannelPlugin.java:1337-1350 | the peer accepts a frame if and only if no frame sent before it is a window or more ahead |
| `PartitionRuns.AcceptedIffNoFarPing` | android/app/src/main/java/com/agentmobile/agent/AgentChannelPlugin.java:1004-1015 | with frames enqueued in sealing order, only a ping a window ahead can cost a flushed frame |
| `PartitionDelivery.HandedUpIff` | proto.js:205-220 | at the agent's channel, the n-th intact frame is opened and handed up if and only if nothing sent before it is a window or more ahead |
| `PartitionDelivery.HandedUpInOrder` | android/app/src/main/java/com/agentmobile/agent/AgentChannelPlugin.java:1004-1015 | over every run of the phone, the agent hands up exactly the messages nothing outran, each once and in order |
| `PartitionLoss.PingOutrunsBuffer` | android/app/src/main/java/com/agentmobile/agent/AgentChannelPlugin.java:1337-1341 | for every number of buffered frames, a run that trims none and whose peer takes exactly the newest 1023 |

## Left out

- Cryptographic primitives: ChaCha20-Poly1305, X25519, SHA-256, HMAC and HKDF are idealised as described above; their computational security is not modelled.
- Sockets, HTTP, timers, logging, JSON and the base64 transport of handshake fields: messages are values, with fields already decoded, and time is an input.
- `ServerHandshake`'s `allow: null` is the gate that lets everyone through; the extra reply fields it may add are not modelled.
- The gateways hold their channels as values; that two requests could share one channel object is not captured. The UDP receiver and the channel itself are objects.
- A refused seal in KoCrypto.java still advances its counter, unlike proto.js; the model is the JavaScript one.
- JavaScript numbers: timestamps above 2^53 are exact here and rounded in the source (those read from a command's text are that large), and fractional or NaN sequence numbers, are not modelled. Java's 64-bit and 32-bit wrap-around (timestamps, the failure count) is not modelled.
- Floating point: the jitter average is a real number. In the source's doubles it never reaches zero but sticks near 1e-323; divided by `frameMs` it is zero after a few thousand quiet packets, and only then does the target reach the baseline.
- Java twins that follow the JavaScript line by line (Ajb.java, the handshake in KoCrypto.java, the receive path of UdpMedia.java) are modelled once. The channel's theorems are about one receive thread; what the phone's two change is `OpenRaces`, at the granularity of the window's locks.
- The partition buffer across a reconnect, where buffered frames are still sealed under the old session's keys: the runs are those of one session with a live socket.
- The partition notification events, backoff intervals and the teardown of a silent socket.
- Runs of uploads that mix numbered and unnumbered chunks: the operations and the accounting cover them, `SurfaceRuns.ReadyAssetIsItsChunks` is for numbered names.
- Object-prototype names such as `constructor` in the surface store: stores are plain maps.
- The cache in getAssetSource and the accessors that copy state out; TextDecoder and atob are library code with the laws `SurfaceRuns.Host.Standard` states. The fallback loop's output for characters outside the basic multilingual plane is modelled but no property is stated.
- Time zero: `_waitingSince` uses 0 for unset, and `JitterTiming.FirstHeld` follows it; clocks that go backwards are covered, wrap-around is not.
- Diagnostics of the WebSocket gateway: byte counts, mirrored rejection counts, gap messages.
- The probe up/down flags of UdpMedia.java, the Stop gate, microphone mute and reconnect backoff: one flag or comparison each.
- The web view (bridge, renderer, host, widgets), Android audio, WebRTC, permissions and key storage: platform calls or small helpers.
