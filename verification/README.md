# xbslink-ng: a verified model of the tunnel protocol

xbslink-ng joins two LANs over UDP: one process listens, one dials, both capture Ethernet
frames, send them to each other in datagrams, and inject what they receive. This project
models the protocol and its concurrent machinery in Dafny and proves what every run keeps.

The network may lose, repeat and reorder datagrams and may add datagrams whose tag does not
verify. HMAC-SHA256 is a function parameter that returns 32 bytes; that it separates
challenges is a hypothesis of the handshake results and of nothing else. That a datagram
with a valid tag is one the other process encoded is part of the network's delivery step
(`Link.Deliverable`), not an axiom.

| file | what it holds |
|---|---|
| ByteOrder, Wrappers, Sequences | bytes, big-endian numbers, options, order-keeping selection |
| Protocol | message layouts, `Seal`/`Unseal`, and the class `Codec` that fills buffers and keeps the two nonces |
| Replay | whole runs of one receiving codec |
| Transport | the handshake loops, backoff, Send, SendBye, Close |
| PingMonitor | the ping timeout over whole histories of calls |
| Stats | the round-trip window in 64-bit arithmetic, and the spike test |
| Pipeline | the two bounded frame queues under any interleaving |
| RecvBuffer | the receive buffer that queued frames alias, and the two loops over it |
| BridgeCode | the bridge's handlers as they update its fields, each proved to be the steps it takes in Pipeline, PingMonitor and Lifecycle |
| Lifecycle | one call of Run with its workers, under any interleaving |
| Process | the reconnection loop around Run, with signals |
| Link | two whole processes and the network; LinkFrames, LinkPings and LinkHandshake prove what its runs keep, LinkProgress what they can still do |
| EventWriter | the asynchronous event writer, under any interleaving and as a class |
| NumberFormat | `formatNumber` |

What the runs of `Link` assume beyond that is written as guards of its steps: fewer than 2^64
messages per process, a challenge that was not used before, and a clock that does not go
backwards and moves between two pings. The two processes are in secure mode in every result
about `Link` and `Replay`; the `Protocol` results cover both modes.

In a concurrent model a run is any sequence of steps of the goroutines; a step whose
goroutine is not at that point changes nothing. A step is one locked section, one channel
operation or one socket operation.

Where the code and its comments differ, the model follows the code:

- Comments at internal/bridge/bridge.go:621 and cmd/xbslink-ng/main.go:443 promise that a
  peer's BYE makes Run return and the process reconnect. A BYE closes `done`, but the worker
  loops watch only the context, so Run does not return until the context is cancelled
  (`Lifecycle.ReturnAfterConnected`); that context is the application's, so the process then
  exits and never starts a second bridge (`Process.NeverReconnects`). `Process.ByeHandled`
  is a run with a BYE and no signal, still inside Run. `Link` keeps a step for a second
  bridge, EndSession, so that what its runs keep does not rest on this.
- `Connect` retries forever, but a listener that has accepted a HELLO answers no other: if
  its answer does not arrive before the attempt ends, no retry can connect
  (`LinkProgress.ConnectableExactly`; `LostAckStrands` is a run).
- Run's shutdown branch closes `done` without `doneOnce`, so a BYE or ping timeout in the
  same moment closes it twice and panics. `Lifecycle.PanicExactly` says from which states
  that can still happen and from which it cannot be avoided; `ByeDuringShutdownPanics` is a
  run.
- A frame queued for injection is a slice of the receive buffer and can be overwritten before
  it is injected (`RecvBuffer.InjectedExactly`, `SecondFrameOverwrites`).
- A nonce of zero passes the replay check, so a wrapped counter reopens the window.
  `Replay.AcceptedAreRecords` says exactly what is accepted with such nonces in the run;
  the runs of `Link` have fewer than 2^64 sends.
- `formatNumber` inserts at most two commas (`NumberFormat.Grouping`).

## Model

| member | source | states |
|---|---|---|
| `ByteOrder.BigEndianDigit` | internal/protocol/protocol.go:106 | Byte i of a k-byte number is its base-256 digit of weight 256^(k-1-i). |
| `ByteOrder.TwosComplement` | internal/protocol/protocol.go:206-217 | The int64 and uint64 casts of timestamps change a number by a multiple of 2^64 and invert each other. |
| `Protocol.PrefixInjective` | internal/protocol/protocol.go:97-113 | The authenticated prefix determines type, nonce and payload. |
| `Protocol.TagInputsDisjoint` | internal/protocol/protocol.go:168-222 | No message an encoder can produce is authenticated over a 16-byte string, so message tags and challenge responses never share an input. |
| `Protocol.OpenWire` | internal/protocol/protocol.go:100-165 | Opening an encoder's datagram returns type and payload, and refuses it exactly when it is a secure non-handshake datagram with a nonce in 1..recvNonce. |
| `Protocol.InterpretPayload` | internal/protocol/protocol.go:234-293 | The payload of every encodable message reads back as that message, negative timestamps included. |
| `Protocol.RoundTrip` | internal/protocol/protocol.go:100-293 | For both modes and every message: Decode of the encoding gives the message and moves recvNonce to its nonce, except for the replay case, which moves nothing. |
| `Protocol.InterpretedPayload` | internal/protocol/protocol.go:241-293 | A payload the decoder accepts starts with the payload of the message it yields; a frame's is exactly that. |
| `Protocol.OpenedForm` | internal/protocol/protocol.go:124-165 | What decode accepts is the wire form of what it returns, with a nonce above recvNonce or zero. |
| `Protocol.CanonicalParse` | internal/protocol/protocol.go:124-293 | An accepted datagram is the encoding of its message up to trailing payload bytes; a frame has none, and in insecure mode re-encoding gives a prefix of the datagram. |
| `Protocol.RejectionAndNonce` | internal/protocol/protocol.go:124-165 | Too-short, bad-tag and replay rejections leave recvNonce alone; a payload error after the nonce check has already stored the nonce. |
| `Protocol.ForgeryRefused` | internal/protocol/protocol.go:143-146 | A datagram whose tag does not verify is refused and changes nothing. |
| `Protocol.WireLayout` | internal/protocol/protocol.go:97-222 | The bytes of every message on the wire in both modes: type, nonce, payload, and the tag of all before it. |
| `Protocol.ResponseVerifies` | internal/protocol/protocol.go:189-203 | With a key exactly the tag of a 16-byte challenge verifies, and HELLO_ACK carries it; without a key HELLO_ACK carries zeros and anything verifies. |
| `Protocol.EarlyRejections` | internal/protocol/protocol.go:124-156 | A datagram is refused as too short, as forged or as a replay exactly under these conditions, in both modes. |
| `Protocol.RejectionReasons` | internal/protocol/protocol.go:241-290 | A fresh datagram is refused for its type, its payload size or its version exactly under these conditions, in both modes. |
| `Protocol.Codec.constructor` | internal/protocol/protocol.go:65-72 | Both counters start at zero. |
| `Protocol.Codec.NextNonce` | internal/protocol/protocol.go:80-82 | The send nonce is incremented modulo 2^64 and returned. |
| `Protocol.Codec.Encode` | internal/protocol/protocol.go:100-120 | The buffer filled in place is the wire form under the next nonce; insecure mode draws none. |
| `Protocol.Codec.EncodeFrame` | internal/protocol/protocol.go:168-173 | Frames outside 14..1514 bytes are refused without drawing a nonce; others are sealed as FRAME. |
| `Protocol.Codec.EncodeHello` | internal/protocol/protocol.go:176-187 | A HELLO with the random challenge, which is also returned; an error when there is no randomness. |
| `Protocol.Codec.EncodeHelloAck` | internal/protocol/protocol.go:191-203 | A HELLO_ACK whose response is the tag of the challenge in secure mode and zeros otherwise. |
| `Protocol.Codec.EncodePingPong` | internal/protocol/protocol.go:206-217 | A PING or PONG with the timestamp through the uint64 cast. |
| `Protocol.Codec.EncodeBye` | internal/protocol/protocol.go:220-222 | A BYE with an empty payload. |
| `Protocol.Codec.DecodeRaw` | internal/protocol/protocol.go:124-165 | Header, tag and nonce checks in the code's order, against `Open`. |
| `Protocol.Codec.Decode` | internal/protocol/protocol.go:235-293 | The decoded message and the new receive nonce are those of `Unseal`. |
| `Protocol.Codec.ResetRecvNonce` | internal/protocol/protocol.go:309-311 | The receive nonce becomes zero. |
| `Replay.NonceIsMaximum` | internal/protocol/protocol.go:148-156 | Over any run, recvNonce is the largest nonce seen, accepted or not, since the last zero nonce, or since the reset and the starting value if there was none. |
| `Replay.AcceptedAreRecords` | internal/protocol/protocol.go:148-156 | Over any run, exactly the handshake messages, the zero nonces and the nonces that are a strict maximum since the last zero nonce are accepted; junk is refused and everything else is a replay. |
| `Replay.AcceptedNoncesIncrease` | internal/protocol/protocol.go:148-156 | Until a zero nonce comes between them, nothing subject to the check is accepted twice or out of nonce order. |
| `Replay.InOrderNeverReplay` | internal/protocol/protocol.go:148-156 | After a reset, datagrams in nonce order are all accepted, wherever the peer's counter restarted. |
| `Replay.WrappedNonceReopensWindow` | internal/protocol/protocol.go:151-156 | The input that shows why the zero nonce is an exception: it is accepted at any time and lets an accepted datagram in again. |
| `Transport.BackoffSchedule` | cmd/xbslink-ng/main.go:187-198 | The two backoff tables agree for every attempt, start with 1, 2 and 5 s, never decrease, stop at 10 s, and n >= 3 failures cost 8 + 10(n-3) s. |
| `Transport.AckJoinsItsOwnAttempt` | internal/protocol/protocol.go:296-306 | In secure mode a HELLO_ACK for one challenge is accepted by exactly the attempt that sent it. |
| `Transport.StrangerIsAsked` | internal/transport/transport.go:204-209 | A valid message that is no HELLO is answered with a BYE to its source and the wait goes on, in both modes. |
| `Transport.ForgeryIsIgnored` | internal/transport/transport.go:195-201 | A datagram whose tag does not verify is not answered and moves nothing. |
| `Transport.HelloIsAccepted` | internal/transport/transport.go:211-225 | A HELLO ends the wait with its challenge, whatever the receive nonce, in both modes. |
| `Transport.AnyAckJoinsWithoutKey` | internal/transport/transport.go:326-347 | Without a key the first HELLO_ACK from the peer connects, whatever its response and whatever follows. |
| `Transport.AckJoinsWithKey` | internal/transport/transport.go:326-347 | With a key the first HELLO_ACK from the peer connects if and only if its response is the tag of the challenge. |
| `Transport.AttemptGoesOn` | internal/transport/transport.go:300-329 | Silence, other sources, refused datagrams and messages that are no HELLO_ACK do not end an attempt. |
| `Transport.AttemptNonce` | internal/transport/transport.go:308-316 | During an attempt a datagram from the peer moves the receive nonce and one from elsewhere does not. |
| `Transport.Transport.constructor` | internal/transport/transport.go:83-114 | A new transport is neither connected nor closed. |
| `Transport.Transport.Receive` | internal/transport/transport.go:193-225 | A HELLO is answered with its challenge response after the nonce reset; another valid message is answered with BYE and changes no address; an invalid one is ignored; a nonce is drawn exactly for an answer. |
| `Transport.Transport.WaitForPeer` | internal/transport/transport.go:168-234 | Returns at the first deciding read; on success the peer is the HELLO's source, it was sent the answer to its challenge, everyone else who sent a valid message got a BYE, and recvNonce is zero; otherwise the peer is unchanged and recvNonce is that of the reads; one nonce per answer. |
| `Transport.Transport.Judge` | internal/transport/transport.go:315-347 | Only a HELLO_ACK whose response answers the current challenge connects; another response is refused. |
| `Transport.Transport.AttemptHandshake` | internal/transport/transport.go:278-351 | Returns at the first deciding read from the peer's address; succeeds if and only if the HELLO was written and that read is the answer to this attempt's challenge. |
| `Transport.Transport.Connect` | internal/transport/transport.go:238-275 | No attempt before the last succeeds, and the result is success if and only if the last one does, by its own reads, from the codec's receive nonce for the first attempt and from zero for later ones; it slept the backoff schedule and wrote one HELLO per attempt that could. |
| `Transport.Transport.Send` | internal/transport/transport.go:354-369 | Writes to the peer exactly when open and connected. |
| `Transport.Transport.SendBye` | internal/transport/transport.go:391-403 | Encodes a BYE, and draws a nonce, only when connected and open. |
| `Transport.Transport.Close` | internal/transport/transport.go:406-421 | Closing is final and repeatable. |
| `PingMonitor.PingsListed` | internal/bridge/bridge.go:685-716 | The pings of a history are listed once each, in order. |
| `PingMonitor.OutcomeMeans` | internal/bridge/bridge.go:570-587 | The recorded outcome of a ping is whether its PONG came before the next ping. |
| `PingMonitor.HistoryRecorded` | internal/bridge/bridge.go:570-716 | After any history without a timeout, the two fields hold the outstanding ping and the number of unanswered pings before it. |
| `PingMonitor.TimeoutExact` | internal/bridge/bridge.go:685-710 | The first timeout is signalled if and only if the last three pings each got no matching PONG while outstanding; no outstanding ping means no missed pongs. |
| `PingMonitor.SilenceSignals` | internal/bridge/bridge.go:685-710 | From any live state without a match, the timeout comes exactly at the computed call, never later than the fourth; other PONGs change nothing. |
| `PingMonitor.TimeoutRepeats` | internal/bridge/bridge.go:685-710 | After a timeout every later sendPing signals again until the outstanding ping gets its PONG, which resets both fields. |
| `Stats.AverageExact` | internal/bridge/bridge.go:80-95 | The average is the truncated mean of the last 20 samples if and only if their sum fits in 64 bits. |
| `Stats.AverageTruncates` | internal/bridge/bridge.go:80-95 | While the sum fits, the average is the mean of the last 20 samples rounded toward zero. |
| `Stats.AverageBetween` | internal/bridge/bridge.go:80-95 | For samples below 2^63/20 ns the average is that mean and lies between the smallest and largest. |
| `Stats.Stats.constructor` | internal/bridge/bridge.go:192-198 | No samples yet. |
| `Stats.Stats.AddRTTSample` | internal/bridge/bridge.go:80-95 | After any sequence of calls the window is the last min(n, 20) samples and the running sum is their sum, modulo wrap-around. |
| `Stats.Stats.CheckRTTSpike` | internal/bridge/bridge.go:98-114 | The spike test on the fields, in floating point. |
| `Stats.Stats.SetLastRTT` | internal/bridge/bridge.go:117-121 | Stores the previous sample. |
| `Stats.Stats.RecordPong` | internal/bridge/bridge.go:589-599 | Across all calls a spike is reported exactly when there are two samples, the previous one is positive and 2(current - previous) > previous, for durations up to 2^53 ns. |
| `Pipeline.TxRunKeeps` | internal/bridge/bridge.go:442-475 | In every run frames are encoded, and written, in capture order without repetition. |
| `Pipeline.FramesConserved` | internal/bridge/bridge.go:442-475 | In every run captured = TxPackets + queued + dropped + rejected + failed + at most one in hand; TxBytes is the length of what was written; the queue holds at most 256. |
| `Pipeline.InjectionOrder` | internal/bridge/bridge.go:547-556 | In every run frames are injected in the order handled; RxPackets = injected + queued + dropped. |
| `RecvBuffer.ByteAfter` | internal/bridge/bridge.go:484-516 | A byte of the buffer survives later reads exactly when the last read that reaches it carries the same byte. |
| `RecvBuffer.PayloadSlice` | internal/protocol/protocol.go:136-140 | The decoded frame is a slice of the datagram at a fixed offset. |
| `RecvBuffer.InjectedIntact` | internal/bridge/bridge.go:484-556 | A queued frame is injected as it was handled if and only if, at each of its positions, the last read in between that reaches the position carries the same byte. |
| `RecvBuffer.RunKeeps` | internal/bridge/bridge.go:484-663 | In every run of recvLoop and injectLoop, with reads, sends on the channel, receives from it and packet writes interleaved, the buffer is what the reads made of it and each slot is a slice of the datagram it came in. |
| `RecvBuffer.InjectedExactly` | internal/bridge/bridge.go:484-663 | In every such run slots are injected in the order of their datagrams, and each injected frame equals the handled one if and only if the reads in between left its bytes as they were. |
| `RecvBuffer.SecondFrameOverwrites` | internal/bridge/bridge.go:484-663 | The run in which it goes wrong, for any two different frames of one size: both are read before the first is injected, and the second's bytes are injected for the first. |
| `RecvBuffer.StrangerRead` | internal/bridge/bridge.go:507-511 | A datagram from another source is not decoded or queued, but overwrites the front of the buffer. |
| `RecvBuffer.Buffer.Recv` | internal/bridge/bridge.go:494-507 | A read overwrites the front of the buffer only. |
| `BridgeCode.Bridge.constructor` | internal/bridge/bridge.go:192-207 | A new bridge is at the start of the runs of `Pipeline`, `PingMonitor` and `Lifecycle`. |
| `BridgeCode.Bridge.SetState` | internal/bridge/bridge.go:375-390 | An event is emitted on a change of state and only then. |
| `BridgeCode.Bridge.Connecting` | internal/bridge/bridge.go:243-244 | Is the first two steps of Run in `Lifecycle`: the fields stay those of the run extended by them. |
| `BridgeCode.Bridge.Connected` | internal/bridge/bridge.go:260-316 | Is Run's steps from a successful handshake to its wait; the CONNECTED event goes out and statsLoop runs exactly if there is an interval. |
| `BridgeCode.Bridge.Disconnect` | internal/bridge/bridge.go:618-625 | Is the three steps of a `Lifecycle` worker that got a BYE or missed its PONGs, from any state of the channel; says when the close panics. |
| `BridgeCode.Bridge.Shutdown` | internal/bridge/bridge.go:324-356 | Is Run's steps from the check of `done` to the wait for its workers: a BYE is attempted and `done` closed exactly if the peer has not ended the session; the transport is closed either way. |
| `BridgeCode.Bridge.Finish` | internal/bridge/bridge.go:341-371 | Is Run's last steps: when it returns, its result is that of the run and the session's three events are out. |
| `BridgeCode.FieldsOrdered` | internal/bridge/bridge.go:243-390 | In every state these methods can reach, the emitted events are a prefix of CONNECTING, CONNECTED, DISCONNECTED, and `done` was closed twice if and only if both Run and a worker closed it. |
| `BridgeCode.Bridge.CaptureFrame` | internal/bridge/bridge.go:442-447 | Is the step Capture of `Pipeline`: queue and counters stay those of the run extended by it, so `Pipeline`'s results hold of the fields. |
| `BridgeCode.Bridge.SendOne` | internal/bridge/bridge.go:460-475 | Is the steps Dequeue, Encode, Write of `Pipeline`; the frame is sealed, written and counted exactly when its size is legal and the transport can write. |
| `BridgeCode.Bridge.HandleFrame` | internal/bridge/bridge.go:547-556 | Is the step Handle of `Pipeline`: queue and counters stay those of the run extended by it. |
| `BridgeCode.Bridge.InjectOne` | internal/bridge/bridge.go:642-663 | Is the step Inject of `Pipeline`: the frame taken is the oldest waiting one, the one the run names. |
| `BridgeCode.FieldsConserved` | internal/bridge/bridge.go:442-556 | In every state the handlers can reach, the fields themselves conserve frames: captured = TxPackets + queued + dropped + rejected + failed, RxPackets = injected + queued + dropped, in order, at most 256 queued each way. |
| `BridgeCode.Bridge.HandlePing` | internal/bridge/bridge.go:560-567 | Sends a PONG with the PING's timestamp. |
| `BridgeCode.Bridge.HandlePong` | internal/bridge/bridge.go:570-599 | The fields follow `PingMonitor.HandlePong`; a sample is recorded exactly on a match, and a spike reported by the rule of `Stats`. |
| `BridgeCode.Bridge.SendPing` | internal/bridge/bridge.go:685-716 | The fields follow `PingMonitor.SendPing`; a timeout is `Disconnect` by pingLoop and sends nothing, otherwise the new ping goes out. |
| `Lifecycle.RunKeeps` | internal/bridge/bridge.go:243-372 | In every run at most one goroutine owes the DISCONNECTED event, and the closes, the check and the BYE stay consistent. |
| `Lifecycle.EventsArePrefix` | internal/bridge/bridge.go:374-390 | In every interleaving the state_changed events are a prefix of CONNECTING, CONNECTED, DISCONNECTED. |
| `Lifecycle.ReturnAfterConnected` | internal/bridge/bridge.go:318-371 | If Run returns after connecting, the context is cancelled, all workers have exited and all three events are out; peer-disconnected without BYE if the check found `done` closed, nil with one BYE attempt otherwise. |
| `Lifecycle.ReturnBeforeConnected` | internal/bridge/bridge.go:245-259 | If Run returns without connecting, only CONNECTING was announced, no BYE was tried, and nil means the context was cancelled. |
| `Lifecycle.FailedHandshake` | internal/bridge/bridge.go:253-258 | When a handshake failure makes Run return, the result is nil if and only if the context was cancelled before. |
| `Lifecycle.WaitsForWorkers` | internal/bridge/bridge.go:263-365 | If Run returns after connecting, captureLoop, sendLoop, injectLoop and stdinLoop have exited, and statsLoop if there is an interval; until the context is cancelled exactly these run. |
| `Lifecycle.WaitsUntilTold` | internal/bridge/bridge.go:318-352 | Run leaves its wait only once the context is cancelled or `done` closed, and attempts a BYE only if the context is cancelled. |
| `Lifecycle.NoByeAfterClose` | internal/bridge/bridge.go:347-356 | Once the transport is closed, a recvLoop that has no BYE never gets one. |
| `Lifecycle.WorkerEnds` | internal/bridge/bridge.go:618-625 | Three steps in a row of a worker that has a BYE or a timeout are, from any state, setState and doneOnce; `BridgeCode.Bridge.Disconnect` rests on it. |
| `Lifecycle.RunChecks` | internal/bridge/bridge.go:324-356 | Run's check, BYE, close of `done` and close of the transport in a row; `BridgeCode.Bridge.Shutdown` rests on it. |
| `Lifecycle.PanicExactly` | internal/bridge/bridge.go:318-371 | From any reachable state: Run can still return if and only if not (the check found `done` open and recvLoop or pingLoop has begun, or finished, ending the session); `done` can still be closed twice if and only if not (the check found it closed, Run has returned, doneOnce fired before the check, or doneOnce has not fired, pingLoop has exited and recvLoop has exited, is about to, or reads from a closed transport). |
| `Lifecycle.DoomedForever` | internal/bridge/bridge.go:346-365 | Once the check found `done` open and a worker has begun to end the session, no continuation returns. |
| `Lifecycle.SafeForever` | internal/bridge/bridge.go:324-355 | Once only one of the two closes can come, no continuation panics. |
| `Lifecycle.ReturnReachable` | internal/bridge/bridge.go:318-371 | From every other reachable state, exited workers and workers still handling a BYE included, some continuation returns. |
| `Lifecycle.PanicReachable` | internal/bridge/bridge.go:346-355 | From every reachable state in which both closes can still come, some continuation panics. |
| `Lifecycle.QuietPeerNeverPanics` | internal/bridge/bridge.go:618-625 | A run without a BYE and without a ping timeout never panics. |
| `Lifecycle.ByeDuringShutdownPanics` | internal/bridge/bridge.go:346-355 | A run in which that happens. |
| `Process.RunKeeps` | cmd/xbslink-ng/main.go:359-485 | In every run of the reconnection loop, with signals and bridge steps interleaved, a bridge's context is cancelled only with the application's. |
| `Process.SignalCancels` | cmd/xbslink-ng/main.go:322-326 | In every run, once a signal has come, the running bridge's context is cancelled. |
| `Process.CanExit` | cmd/xbslink-ng/main.go:359-485 | From every reachable state whose bridge is not doomed to panic, some continuation ends the process. |
| `Process.DoomedNeverExits` | cmd/xbslink-ng/main.go:426-440 | From one whose bridge is doomed, none does. |
| `Process.NeverReconnects` | cmd/xbslink-ng/main.go:429-464 | In every run at most one bridge is started and the reconnection branch is not entered. |
| `Process.WouldReconnect` | cmd/xbslink-ng/main.go:442-464 | What the branch that is not entered would do: start a further bridge afresh. |
| `Process.ByeAloneEndsNothing` | cmd/xbslink-ng/main.go:426-443 | Without a signal, a process that was connected is still inside Run, whatever BYEs and ping timeouts it handled. |
| `Process.ByeHandled` | cmd/xbslink-ng/main.go:426-443 | The run in which the promise fails: no signal, a connected peer's BYE handled, all three events out, Run past its check and waiting. |
| `LinkFrames.Arrival` | internal/protocol/protocol.go:143-156 | The peer's datagram number i is accepted exactly when it is a handshake message or i is not below recvNonce. |
| `LinkFrames.RunKeeps` | internal/bridge/bridge.go:442-536 | In every run of the two processes, logs, frame origins and receive states stay consistent. |
| `LinkFrames.FramesArriveInOrder` | internal/bridge/bridge.go:479-536 | In every run the frames passed to handleFrame in a session are an order-keeping, duplicate-free selection of the frames the peer captured. |
| `LinkFrames.NonceNeverAhead` | internal/protocol/protocol.go:148-156 | In every run recvNonce never exceeds the peer's counter, and in a session a datagram is taken in exactly when it is new enough or a handshake message. |
| `LinkPings.RunPings` | internal/bridge/bridge.go:559-592 | In every run a PONG is only said in answer to the peer's PING, and the outstanding ping is the newest. |
| `LinkPings.SamplesAreEchoes` | internal/bridge/bridge.go:584-592 | In every run each sample is non-negative, for a ping sent and echoed by the peer, and no ping has two. |
| `LinkPings.PingsAreAnswered` | internal/bridge/bridge.go:526-567 | After any run, a PING read in session and not refused as old adds exactly the PONG with its timestamp to the log. |
| `LinkPings.OnlyNewestPingSampled` | internal/bridge/bridge.go:570-592 | A PONG is sampled exactly when it echoes the outstanding ping, the newest; late or repeated PONGs change neither samples nor missed count. |
| `LinkHandshake.RunShakes` | internal/transport/transport.go:168-351 | In every run the listener answers only HELLOs it accepted and recorded, and the dialler never repeats a challenge. |
| `LinkHandshake.HandshakeAgreement` | internal/transport/transport.go:278-347 | In every run a connected dialler implies that the listener accepted the HELLO of that very attempt, recorded its source and wrote the answer; a connected listener is in session with the last HELLO it accepted. |
| `LinkHandshake.SharedSession` | internal/transport/transport.go:168-347 | In every run in which the listener's Run does not return, a connected dialler implies a listener in session for the same challenge. |
| `LinkHandshake.StaleAckNeverConnects` | internal/transport/transport.go:331-337 | In every reachable state an answer to another attempt ends the current attempt instead of connecting it. |
| `LinkHandshake.WaitingAsks` | internal/transport/transport.go:204-209 | After any run, a waiting listener answers a message that is no HELLO with one written BYE and waits on. |
| `LinkHandshake.AttemptSkips` | internal/transport/transport.go:326-329 | After any run, an attempt reads past a listener's message that is no handshake message, and only its receive nonce moves. |
| `LinkHandshake.RestingReset` | internal/transport/transport.go:271-273 | In every run the dialler's receive nonce is zero between attempts. |
| `LinkHandshake.OnlyPeerHeard` | internal/bridge/bridge.go:507-521 | After any run, a delivery that changes a process is of a datagram the other one wrote, and from the dialled or the session's address unless the process waits for anybody. |
| `LinkHandshake.NothingWithoutCause` | internal/bridge/bridge.go:479-716 | After any run, a step adds at most one message to a process's log, and only a frame, a HELLO, an answer to a HELLO, the ping that is due, the echo of a PING, or a BYE that ends a session or answers a stranger. |
| `LinkProgress.ConnectsAfterFailures` | internal/transport/transport.go:168-347 | After any run in which the listener still waits and the dialler is between attempts, however many failed, one unused challenge and a prompt network put both in session with zero receive nonces. |
| `LinkProgress.ConnectsAgain` | cmd/xbslink-ng/main.go:442-464 | What reconnection would be, had Run returned: after any run with both in session, both renewed, four prompt turns put both in session again, from zero receive nonces and fresh monitors. |
| `LinkProgress.StrandedForever` | internal/bridge/bridge.go:520-535 | Once the listener is in session without having answered the attempt under way, no continuation in which its Run does not return connects the dialler. |
| `LinkProgress.LostAckStrands` | internal/transport/transport.go:202-225 | The run in which it happens, for any challenge: the listener accepts the first HELLO, its answer does not arrive, the attempt ends. |
| `LinkProgress.ConnectableExactly` | internal/transport/transport.go:168-351 | After any run, the dialler can still connect to a listener whose Run does not return if and only if the listener waits or has answered the attempt under way. |
| `LinkProgress.PromptNetworkRelaysAll` | internal/bridge/bridge.go:442-536 | After any run with both in session and sendLoop idle, a continuation that captures any frames, then sends the queue, then delivers its datagrams hands the peer's handleFrame the frames queued before and as many new ones as fit 256 slots, every one of a legal size and in order. |
| `LinkProgress.PingRoundTrip` | internal/bridge/bridge.go:559-716 | After any run with both in session, a continuation with a ping, its echo and the echo's dispatch adds exactly one sample, the time in between, and leaves no ping outstanding or missed. |
| `LinkProgress.ByeArrives` | internal/transport/transport.go:391-403 | After any run with both in session, a continuation brings a BYE to the peer's recvLoop. |
| `EventWriter.WrittenInOrder` | internal/events/jsonline.go:71-104 | In every run the inner writer gets an order-keeping, duplicate-free selection of the emitted events; emitted = written + queued + dropped + at most one in hand; at most 64 queued. |
| `EventWriter.CloseDrains` | internal/events/jsonline.go:88-112 | When the background goroutine has returned, every event accepted before Close began is written, whatever was emitted meanwhile. |
| `EventWriter.ClosedRunDrains` | internal/events/jsonline.go:88-112 | For any run, then Close, then any steps: once the goroutine has returned, everything accepted before Close is written, in order. |
| `EventWriter.AsyncWriter.constructor` | internal/events/jsonline.go:60-69 | At the start of every run: empty channel, not done, the goroutine running. |
| `EventWriter.AsyncWriter.Emit` | internal/events/jsonline.go:73-86 | Is the step Emit of the run: the fields stay those of the run extended by it, so the results above hold of them. |
| `EventWriter.AsyncWriter.WriterTurn` | internal/events/jsonline.go:89-104 | One select as steps of the run: hand over the oldest event, or drain everything in order and return. |
| `EventWriter.AsyncWriter.Close` | internal/events/jsonline.go:108-112 | With no emitter left, everything queued is written in order, and then everything ever accepted has been written. |
| `NumberFormat.FormatIsNumeral` | internal/bridge/bridge.go:808-816 | Without its commas the text is the decimal numeral. |
| `NumberFormat.FormatInjective` | internal/bridge/bridge.go:808-816 | Different numbers are formatted differently. |
| `NumberFormat.Grouping` | internal/bridge/bridge.go:808-816 | Every comma is followed by exactly three digits; at most three digits precede the first comma if and only if n < 10^9. |
| `NumberFormat.CommaCount` | internal/bridge/bridge.go:808-816 | No comma below a thousand, one below a million, two from there on. |

## Left out

- Packet capture, injection and interface listing: foreign calls. Capture is a source of frames.
- HMAC-SHA256 and the random generator: library code. Nothing is claimed of their strength.
- Sockets, deadlines, name resolution, IPv4-in-IPv6 address forms: a read is a list element, a write an append, an address a value.
- A process restart inside `Link`: its runs keep one codec per process. `Replay.InOrderNeverReplay` covers a counter that starts again after a reset.
- Reflected datagrams: both directions share a key, and the network step delivers only the other side's datagrams.
- A datagram longer than the receive buffer: no UDP datagram is.
- When a BYE arrives and when pings time out, in `Lifecycle`: the run decides, so its results do not use the ping interval.
- Which session a frame was captured in: after a reset the receiver takes old datagrams of the same peer codec again, so the order result is about all frames the peer captured.
- The branch of captureLoop and injectLoop for a capture that was removed: nothing removes one.
- Delivery in insecure mode: without tags and nonces nothing orders or authenticates datagrams.
- Wrap-around of the packet and byte counters and of missedPongs: they are natural numbers.
- A reader between the updates of a packet counter and its byte counter, or between them and handleFrame's send on the channel: they are one step.
- Logging, command-line flags, the stdin monitor, `formatBytes`, JSON text, the configuration file, discovery.
- AsyncWriter.Close: a second call panics in the code; the contract requires that it is the first.
