# A verified model of the serial/UDP Meshtastic bridge

The bridge connects a Meshtastic radio on a serial port to a UDP multicast group. This project models
its core in Dafny and proves what the pieces promise together:

| file | what it models |
|---|---|
| `Bytes.dfy`, `BigEndian.dfy` | bytes, XOR, big-endian numbers and the carry |
| `SerialFraming.dfy` | the byte-at-a-time frame reader and the frame writer |
| `StressDeframer.dfy` | the stress harness's buffered deframer, a whole-stream reading of both, and where they agree |
| `Crypto.dfy` | the AES-CTR transform over an uninterpreted block cipher |
| `Protocol.dfy` | the messages, and the protobuf codec as a parameter |
| `ChannelKeys.dfy` | PSK expansion, channel hash, display names |
| `PacketCrypto.dfy` | encrypting and decrypting packets with a channel table |
| `RecentPackets.dfy` | the duplicate window |
| `Bridge.dfy` | the two handlers and the dispatch loop of a session |
| `BridgeRuns.dfy` | threads, queue and main loop as a step system; non-interference |
| `BridgeEvents.dfy` | what each event of a session does, in terms of packet fields and remembered keys |
| `BridgeDuplicates.dfy`, `LanDelivery.dfy` | duplicate suppression over runs; a packet's way from radio to radio |
| `Handshake.dfy`, `HandshakeResult.dfy`, `HandshakeMeaning.dfy` | the handshake loop, what its result means, and when it gives up or asks again |
| `Autodetect.dfy` | the scan over candidate ports |
| `ChannelMerge.dfy` | merging the radio's channels with Raven's |
| `RadioTable.dfy`, `ChannelInstall.dfy`, `Rerun.dfy`, `Convergence.dfy` | installing channels, agreement, restart, convergence |
| `UnnamedChannels.dfy` | Raven lists that never settle |
| `InstalledChannels.dfy` | what is installed, channel by channel, and the radio's primary channel |
| `JsonMerge.dfy` | the configuration override |
| `Supervisor.dfy`, `SupervisorRuns.dfy` | one session, the loop over sessions, and whole runs of the process |
| `SupervisorEvents.dfy` | what each session does, in terms of reports, acts and events |
| `SupervisorConvergence.dfy` | the radio's channel table over the runs of the process |

Objects that the program updates in place are classes (`FrameReader`, `Deframer`, `Recent`, `Session`,
the handshake's `Loop`, the process's `Main`); each method is proved equal to a function of the old
state, and the results below are proved of those functions. The counter of the cipher is an `array`.
`hide` statements only narrow what a proof may look at.

## Parameters and abstractions

- The protobuf codec is a value with the functions the code calls. Where a result needs decoding to undo
  encoding it says so, for the messages at hand. The block cipher is any function from a 16- or 32-byte
  key and a 16-byte block to a 16-byte block.
- Fields the bridge passes on untouched are one byte string `rest` in each message. Strings are their
  UTF-8 bytes.
- The port and the clock of a handshake are a list of turns, one for each pass of the loop, with the
  success of every write. The clock may be any sequence of numbers.
- A bridge session takes events from a queue. Reader threads, queue and main loop are the actions of
  `BridgeRuns.System`; a run is any schedule of enabled actions.
- The radio's channel table is what a handshake reports: channels in ascending index order. It accepts
  every `set_channel` that reaches it.
- A session of the process is a `World`: what the scans meet or the named port delivers, Raven's file,
  and the events of the queue.

## What was found

- A duplicate window of capacity 0 behaves like one of capacity 1 (`RecentPackets.Span`).
- The dispatch loop's "all reader threads exited" branch is never taken (`NeverDisconnected`).
- The repository's documentation (README.md:58) says that packets are not forwarded back to the direction
  they came from. The code suppresses only on the LAN side: a packet from the radio goes out to the LAN if
  and only if it is not marked as LAN, MQTT or PKI traffic, whether or not the window has seen it
  (`ForwardedUnlessSkipped`). A LAN packet that the radio reports without the LAN stamp goes back to the
  LAN (`UnstampedPacketBounces`, with an input in `BounceInstance`).
- The two deframers differ after an oversized header, one resuming 2 bytes on and the other 4. They meet
  the same headers of a stream if and only if no oversized one has length bytes that could begin another
  (`SameHeadersExactly`; `DeframersCanPart` names six bytes).
- Channel hashes ignore the order of a name's bytes, so a channel with an anagram of another's name and
  the same key takes the other's packets (`AnagramTakesPackets`, with an input in `AnagramInstance`).
- A packet whose message for the radio is longer than 512 bytes is lost: it is written, but a reader with
  this repository's framing cannot read it, and its key keeps the next copy out (`OversizedIsLost`). In
  proxy mode that takes every datagram of over 512 bytes for a known channel (`LongDatagramIsLost`).
- A Raven channel without a name makes bridge and radio disagree (`BridgeAndRadioAgree`), and every
  session adds another copy of it to the radio (`UnnamedAddsChannel`, with an input in
  `UnnamedInstance`), so interrupted installations do not come out the same (`RestartableExactly`).
- One name with two keys makes every session install again (`NextSessionInstallsNothing`, with an input in
  `TwoKeysInstance`).
- A packet of 2^32 blocks would run into another sender's counter blocks
  (`CounterBlocksRepeatAtTheLimit`).

## Model

| member | source | states |
|---|---|---|
| SerialFraming.FrameReader.Feed | src/serial_framing.rs:29-76 | one byte updates state and buffer as the automaton does and emits at most one frame |
| SerialFraming.FrameReader.FeedBytes | src/serial_framing.rs:79-87 | a slice gives the frames, and leaves the reader, that feeding its bytes in turn gives |
| SerialFraming.WriteFrame | src/serial_framing.rs:91-100 | start bytes, big-endian length truncated to 16 bits, payload |
| SerialFraming.ChunkingIrrelevant | src/serial_framing.rs:79-87 | the frames of a stream do not depend on how it is split across feed_bytes calls |
| SerialFraming.ReachableExactly | src/serial_framing.rs:29-76 | a reader state is reachable if and only if the buffer is empty outside a payload and shorter than the expected length, at most 512, inside one |
| SerialFraming.FramingRoundTripsExactly | src/serial_framing.rs:29-100 | a framed payload comes back as itself if and only if it has at most 512 bytes |
| SerialFraming.NoisyStreamRoundTrips | src/serial_framing.rs:29-100 | payloads separated by garbage without a start pair, which may end in the first start byte, come back in order under every chunking |
| SerialFraming.SelfStabilises | src/serial_framing.rs:29-76 | from every reachable state, 515 bytes without a start pair bring the reader back to hunting and the next valid frame is parsed |
| SerialFraming.StabilisationBoundIsTight | src/serial_framing.rs:29-76 | 514 such bytes do not suffice |
| StressDeframer.Deframer.Feed | hack/stress/stress.py:50-69 | one call returns the frames, and keeps the rest, of buffer and data read as a whole |
| StressDeframer.ReaderRefinesParse | src/serial_framing.rs:29-87 | for every stream the byte automaton emits the frames of the search-and-slice reading that resumes 4 bytes after an oversized header |
| StressDeframer.ParseConcat | hack/stress/stress.py:50-69 | the kept rest stands for the whole past: the buffered deframer does not depend on chunking |
| StressDeframer.ResumePointsAgree | hack/stress/stress.py:63-65 | after an oversized header the two deframers find the same next header if and only if its length bytes do not overlap one |
| StressDeframer.SameHeadersExactly | hack/stress/stress.py:50-69 | on a whole stream the two meet the same headers, position by position, if and only if no oversized one has length bytes that could begin another |
| StressDeframer.DeframersAgree | hack/stress/stress.py:46-69 | call by call, for every chunking, both deframers return the same frames unless an oversized header's length bytes could begin another |
| StressDeframer.DeframersAgreeWithoutOversized | hack/stress/stress.py:46-69 | in particular they agree, call by call, on every stream without an oversized header |
| StressDeframer.DeframersCanPart | src/serial_framing.rs:51-57 | on the six bytes 94 C3 94 C3 00 00 the buffered deframer finds an empty frame and the byte automaton nothing |
| Crypto.AesCtrTransform | src/crypto.rs:78-113 | the loop with counter array, keystream position and carry gives byte i as data XOR the encrypted (initial counter + i/16) at i mod 16; keys under 16 bytes pass data through |
| Crypto.IncrementCounter | src/crypto.rs:100-106 | the in-place carry loop is the successor of the byte string |
| BigEndian.SuccWraps | src/crypto.rs:100-106 | that successor is +1 on the big-endian value, wrapping at 256 to the length |
| Crypto.CounterBlockValue | src/crypto.rs:83-107 | counter block k is the initial counter plus k modulo 2^128, as in section 6.5 and Appendix B of NIST SP 800-38A |
| Crypto.CounterBytes | src/crypto.rs:83-107 | counter block k byte by byte: packet id and sender little-endian, k big-endian, for the first 2^32 blocks |
| Crypto.CtrBytes | src/crypto.rs:67-112 | every output byte: passed through by keys under 16 bytes, else data XOR that counter block under the key's first 16 or 32 bytes |
| Crypto.CtrInverts | src/crypto.rs:58-65 | decryption undoes encryption for every cipher and every key length |
| Crypto.CtrKeepsPrefixes | src/crypto.rs:94-112 | a prefix of the data becomes the same prefix of the output |
| Crypto.CounterBlocksNeverRepeat | src/crypto.rs:83-107 | within 2^32 blocks a packet, counter blocks coincide only for the same sender, packet id and position |
| Crypto.CounterBlocksRepeatAtTheLimit | src/crypto.rs:83-107 | at 2^32 blocks they do coincide, with another sender's first block |
| ChannelKeys.ComputeChannelHash | src/crypto.rs:44-53 | the accumulator loops XOR all bytes of name and key |
| ChannelKeys.HashIgnoresOrder | src/crypto.rs:44-53 | names of any length made of the same bytes share a hash under every key |
| ChannelKeys.HashIsParity | src/crypto.rs:44-53 | each of the hash's eight bits is the parity of that bit over all bytes of name and key |
| ChannelKeys.ExpandsExactly | src/crypto.rs:27-41 | only one-byte PSKs are expanded, to 16 bytes that differ in the last alone |
| ChannelKeys.DefaultChannel | src/crypto.rs:5-8 | the default primary channel's name and key, byte by byte |
| ChannelKeys.PresetNames | src/crypto.rs:117-134 | two further default names and, for every number without one, "Invalid", byte by byte |
| ChannelKeys.DisplaysExactly | src/crypto.rs:136-144 | own name, else the preset's, else "Custom" |
| Bytes.XorBit | src/crypto.rs:44-53 | the exclusive or of two bytes has the bits in which they differ |
| PacketCrypto.EncryptPacket | src/bridge.rs:380-407 | a decoded packet on a keyed channel is encrypted under the first channel with its index and labelled with that channel's hash; others pass unchanged |
| PacketCrypto.DecryptPacket | src/bridge.rs:411-447 | the result is that of the first channel with the hash, a key and a decodable plaintext; failure leaves the packet alone |
| PacketCrypto.EncryptsExactly | src/bridge.rs:380-407 | which packets are encrypted, under which channel's key and with which label; all others, a channel without key included, pass unchanged |
| PacketCrypto.DecryptsExactly | src/bridge.rs:411-447 | a packet is decrypted if and only if some channel has its hash, a key and a plaintext that decodes; the first such channel gives content and index |
| PacketCrypto.RoundTripAcrossBridges | src/bridge.rs:380-447 | a bridge with the same channel name and key always decrypts, and gives the original data under its own index - with distinct indices, if and only if no earlier channel opens the packet |
| PacketCrypto.RoundTripOnOneBridge | src/bridge.rs:380-447 | on one bridge the packet is restored if and only if no channel before its own opens it |
| PacketCrypto.AnagramTakesPackets | src/bridge.rs:380-443 | for every cipher and two tables: a receiving channel with an anagram of the sending channel's name and the same key opens the packet, and takes it unless an earlier one does |
| PacketCrypto.AnagramInstance | src/bridge.rs:420-443 | two channels of one bridge of which the second never gets its own packets |
| RecentPackets.Recent.Insert | src/bridge.rs:72-83 | queue and set stay the last admitted keys without repetition; the result says whether the key was absent; a repeated key changes nothing |
| RecentPackets.EveryRunIsSpaced | src/bridge.rs:72-83 | over every run of insertions and every capacity, equal admitted keys are more than a window apart |
| RecentPackets.AdmitsExactly | src/bridge.rs:72-83 | a key is admitted if and only if it is not among the last `capacity` admitted ones |
| Bridge.Session.HandleSerialFrame | src/bridge.rs:266-309 | what is sent, admitted and reported for every frame from the radio |
| Bridge.Session.HandleUdpPacket | src/bridge.rs:311-366 | what is admitted and written for every datagram; a key is admitted even if its packet is then dropped |
| Bridge.Session.Run | src/bridge.rs:209-263 | the loop dispatches events in order up to the first that ends the session, with the nonce it has then reached |
| BridgeEvents.RadioPacketExactly | src/bridge.rs:266-309 | over every run, a packet from the radio leaves what was sent as it was if and only if it is PKI or marked as LAN or MQTT traffic, and the window's log if and only if it is that or remembered; what is sent and admitted otherwise |
| BridgeEvents.OtherFrameExactly | src/bridge.rs:266-272 | no other frame from the radio changes anything |
| BridgeEvents.LanPacketAdmission | src/bridge.rs:311-329 | over every run a datagram is admitted if and only if it holds an encrypted packet from another node whose sender and id are not among the last 1024; else nothing changes |
| BridgeEvents.PhoneWritesExactly | src/bridge.rs:348-362 | in phone mode an admitted packet is written, decrypted and stamped, if and only if some channel with its hash and a key gives a plaintext that decodes |
| BridgeEvents.ProxyWritesExactly | src/bridge.rs:331-378 | in proxy mode it is written in an envelope if and only if a channel has its hash or it is PKI or for one node on channel 0; topic, id and gateway are spelled out |
| BridgeEvents.HeartbeatsExactly | src/bridge.rs:232-256 | the nonce of the n-th heartbeat of any run: 2 to 2^32 - 1, 0, and from 2 again |
| BridgeEvents.TakesExactly | src/bridge.rs:209-263 | a session takes its events up to the first reboot message or reader error, which says how it ends |
| BridgeRuns.UdpOutputIsDetermined | src/bridge.rs:111-309 | in every interleaving the datagrams sent are a prefix of a function of the serial byte stream and the channel table, and all of it after a reboot or once the stream is handled |
| BridgeRuns.ForwardedExactly | src/bridge.rs:266-309 | that function of the frames: each adds its packet, encrypted, unless it is PKI, LAN or MQTT traffic, up to the first reboot message |
| BridgeRuns.OutputIsAttainable | src/bridge.rs:111-263 | from every reachable state some schedule ends the session or handles the whole stream, and, unless an error is on its way, sends everything the stream calls for |
| BridgeRuns.NonInterference | src/bridge.rs:111-309 | two sessions on one serial stream send the same datagrams, up to how far they got, whatever the LAN sends, the ingress is and the threads do |
| BridgeRuns.InvOverRuns | src/bridge.rs:111-263 | frames taken, queued and pending are always the stream's frames in order, under every schedule |
| BridgeRuns.NeverDisconnected | src/bridge.rs:190-217 | the branch for a queue without senders is never enabled |
| BridgeRuns.FailureEndsSession | src/bridge.rs:127-217 | once a reader thread has ended, the events already queued end the session |
| BridgeDuplicates.ReadmittedOnlyAfterFullWindow | src/bridge.rs:287-329 | between two admissions of a key at least 1024 different other keys are admitted, over every run of events |
| BridgeDuplicates.SeenKeysAreNotWrittenBack | src/bridge.rs:287-329 | a LAN packet whose key the window has seen, from radio or LAN, is written only after 1024 further admissions |
| BridgeDuplicates.WritesAreLegitimate | src/bridge.rs:234-366 | everything written to the radio is a heartbeat not asking for node info or stands for an encrypted LAN packet not claiming to be from this node |
| BridgeDuplicates.ForwardedUnlessSkipped | src/bridge.rs:266-309 | over every run and window state, a packet from the radio is sent to the LAN, once, if and only if it is neither marked as coming from the LAN or MQTT nor PKI |
| BridgeDuplicates.UnstampedPacketBounces | src/bridge.rs:266-366 | in phone mode a LAN packet reported by the radio without the LAN stamp goes back as the same datagram, though its key is remembered |
| BridgeDuplicates.BounceInstance | README.md:58 | an input against the documentation: one channel, one message, for every codec that returns them and every cipher |
| LanDelivery.PhoneDelivery | src/bridge.rs:266-366 | through both sessions a packet arrives with its content, the receiver's index and the LAN stamp; the stamped packet is one the receiver would not forward again; the frame reader gets it if and only if its message has at most 512 bytes |
| LanDelivery.ProxyDelivery | src/bridge.rs:331-347 | in proxy mode the radio gets the LAN packet unchanged, in an envelope named after a channel with its hash, which the frame reader gets if and only if that message has at most 512 bytes |
| LanDelivery.RadioReadsSession | src/bridge.rs:209-366 | all that a session writes over any run, read as one stream, gives its messages in order, if and only if none exceeds 512 bytes |
| LanDelivery.OversizedIsLost | src/bridge.rs:326-366 | a longer message is written and its key admitted, the same datagram again changes nothing, and no stream makes the reader emit it |
| LanDelivery.LongDatagramIsLost | src/bridge.rs:162-347 | in proxy mode every considered datagram of over 512 bytes with a channel is lost so, where encodings are no shorter than what they contain |
| Handshake.Loop.CheckClock | src/serial.rs:151-170 | deadlines, and the resend while a probed port is silent |
| Handshake.Loop.HandleFrame | src/serial.rs:180-273 | what every decoded frame does to the collected information, and when it ends the handshake |
| Handshake.RunHandshake | src/serial.rs:121-279 | verdict, turns used and number of writes of the loop; every write is the same framed request |
| HandshakeResult.ResultIsFold | src/serial.rs:180-273 | the handshake ends exactly at the first matching completion, with the last node number, LoRa and MQTT settings and the usable channels in order since the last reboot, or with an error if no node number came since |
| HandshakeMeaning.MessagesExactly | src/serial.rs:180-193 | a handshake hears every message that decodes; a probe those from the first on that is neither empty nor its own request |
| HandshakeMeaning.ResultExactly | src/serial.rs:180-273 | on success the completion came just now, for the first time; since the last reboot, the last node number, LoRa and MQTT settings, and exactly the channel messages of role 1 or 2 with settings, in order, give the information |
| HandshakeMeaning.NoNumberExactly | src/serial.rs:196-203 | the missing-number error means no node number since the last reboot |
| HandshakeMeaning.GivesUpExactly | src/serial.rs:151-165 | a turn gives up if and only if its clock is past the deadline, or past the first-frame limit of a port still silent |
| HandshakeMeaning.SilentExactly | src/serial.rs:140-178 | the limits for a silent port apply as long as no message has been heard from it |
| HandshakeMeaning.ResendsWhenDue | src/serial.rs:166-170 | on a monotone clock a silent port gets the request again whenever `resend` has passed |
| HandshakeResult.WritesAreBounded | src/serial.rs:158-170 | resends while silent times the interval fit in the first-frame limit; after that one write for every reboot message |
| HandshakeResult.HandOffLosesNothing | src/serial.rs:142-215 | the handshake consumes the stream exactly through its completing frame, so its frames and the bridge's are those of the whole stream |
| Autodetect.Scan | src/autodetect.rs:163-201 | the free candidates are opened in order up to the first that answers, which is the result; exactly those that opened see writes, and only their own request |
| Autodetect.DetectsExactly | src/autodetect.rs:181-199 | device and information are those of the first free candidate that opens and completes its probe; nothing if there is none |
| ChannelMerge.MergeChannels | src/raven.rs:136-200 | the in-place merge loop, proved against one step for each Raven channel |
| ChannelMerge.MergeSemantics | src/raven.rs:131-200 | device entries keep place and index, indices stay distinct, new names are numbered on from the highest index in first-appearance order, every Raven name ends with its last PSK's key |
| InstalledChannels.MaxIndexExactly | src/raven.rs:145 | new channels are numbered from the largest index among the device's, or 0 |
| InstalledChannels.LastPskExactly | src/raven.rs:149-194 | the first entry that goes by a Raven name, as the unnamed primary if need be, ends with the key of the PSK given for it last |
| InstalledChannels.InstallsAreMadeFrom | src/raven.rs:166-212 | for every device and Raven list whose indices fit, everything installed has a Raven channel's name and PSK and is primary if and only if it is at index 0 |
| ChannelInstall.PlanInstall | src/main.rs:205-217 | the downlink loops: reported channels without downlink are added once, and everything installed gets downlink |
| InstalledChannels.PlanExactly | src/main.rs:205-217 | what is installed in either mode: the merge's list, and in proxy mode also exactly the other reported channels that lack downlink, all with downlink |
| ChannelInstall.MergeLockstep | src/raven.rs:136-200 | as long as the indices given out fit, installing the merge's list step by step gives a table whose channel keys are the merged keys |
| Convergence.SessionOutcome | src/main.rs:184-223 | the table after a complete session, in both ingress modes |
| Convergence.BridgeAndRadioAgree | src/main.rs:184-223 | the radio's report after installation gives exactly the keys the bridge runs with, if and only if every Raven channel is named |
| Convergence.SettledHasDownlink | src/main.rs:205-217 | in proxy mode every channel of the radio then has downlink, whatever Raven's list says |
| Rerun.SecondPass | src/raven.rs:149-194 | working through Raven's list a second time changes nothing in the table, even if the list gives a name several keys |
| Convergence.InstallationIsRestartable | src/main.rs:219-223 | after any number of sessions interrupted anywhere, a complete one leaves the table an uninterrupted session leaves, for every list of named Raven channels whose indices fit |
| InstalledChannels.SessionKeepsPrimary | src/raven.rs:166-180 | no session, complete or not, takes a primary channel 0 away from the radio, whatever Raven's list says |
| InstalledChannels.PartsKeepPrimary | src/main.rs:219-223 | nor does any number of sessions, stopped anywhere |
| InstalledChannels.RunKeepsPrimary | src/main.rs:103-272 | nor does a run of the process, across failures and a fallback |
| InstalledChannels.ReportedKeys | src/serial.rs:59-77 | the keys of a report, channel by channel |
| Convergence.QuietOnlyIf | src/main.rs:184-223 | whatever the radio's table, a session installs nothing only if every Raven channel has a name and no name has two keys |
| Convergence.NextSessionInstallsNothing | src/main.rs:184-223 | the session after a complete one installs nothing, if and only if every Raven channel has a name and no name has two keys |
| UnnamedChannels.UnnamedAddsChannel | src/raven.rs:149-200 | with an unnamed Raven channel every complete session adds a channel behind all the radio has |
| UnnamedChannels.RestartableExactly | src/main.rs:184-223 | interrupted installations always come out where an uninterrupted one does, if and only if every Raven channel has a name |
| UnnamedChannels.UnnamedInstance | src/raven.rs:109-120 | an empty name, which a key string starting with the space gives: after two sessions the radio has two copies |
| UnnamedChannels.TwoKeysInstance | src/raven.rs:149-172 | one name with two PSKs: each session installs both again and leaves the table as it was |
| JsonMerge.DeepMerge | src/raven.rs:34-53 | the in-place merge, visiting the override's members in any order, gives MergePatch of section 2 of RFC 7396 on two objects and the base otherwise |
| JsonMerge.MergesLikeRfc7396 | src/raven.rs:34-37 | it differs from RFC 7396 exactly when a side is not an object and the override is not the base |
| JsonMerge.MergesNothingElse | src/raven.rs:34-37 | unless both sides are objects, the base stays |
| JsonMerge.MergesMembersExactly | src/raven.rs:38-51 | member by member: kept, deleted by null, merged into the object there or an empty one, or replaced |
| JsonMerge.MergeIsIdempotent | src/raven.rs:34-53 | applying the same override again changes nothing |
| Supervisor.Main.Session | src/main.rs:163-273 | one session's effects on ingress, MQTT flag and radio, and how it ends, over the scan, handshake, merge and bridge above |
| Supervisor.Main.Loop | src/main.rs:103-126 | the loop over sessions, keeping the port after a reboot and stopping on a UDP failure |
| SupervisorEvents.HandshakeInfoExactly | src/main.rs:171-177 | a named or kept port's information is that of a successful handshake of the session |
| SupervisorEvents.ScannedInfoExactly | src/main.rs:133-145 | in auto mode it is what the first scan that finds a radio found |
| SupervisorEvents.BridgesDoWhatTheyRecord | src/main.rs:264-272 | over every run each bridge act records what a bridge of that act's channels, ingress and node number sent and wrote with that session's events, on the merged channels of that session's report |
| SupervisorEvents.BridgeTraffic | src/main.rs:264-272 | its datagrams are those its frames call for under its channels; it wrote heartbeats, and LAN packets not from its node as proxy messages in proxy mode and as packets in phone mode |
| SupervisorEvents.SetupExactly | src/main.rs:225-262 | when a session runs a bridge and in which mode, when it sets MQTT up, and what it makes of each outcome |
| SupervisorEvents.WithoutRaven | src/main.rs:184-203 | without Raven's list a phone-mode session installs nothing and runs on the radio's channels |
| SupervisorEvents.MqttIsTurnedOn | src/main.rs:225-248 | over every run the configuration goes only to a radio reported without both flags, turns them on and keeps all else but an empty address |
| SupervisorEvents.SessionEndsExactly | src/main.rs:103-126 | the process exits if and only if a bridge ends on a LAN socket error, and keeps its port if and only if a bridge ends on a reboot message or the radio reboots after setup |
| SupervisorRuns.SupervisorSafety | src/main.rs:103-272 | over every run the MQTT configuration is sent at most once, every bridge runs on what its own session's handshake or scan reported, in proxy mode only if that has both flags, and never after one in phone mode |
| SupervisorRuns.IngressOnlyFallsBack | src/main.rs:225-261 | the ingress changes at most once, from proxy to phone, and nothing done is undone |
| SupervisorRuns.OnlyOneSetupSession | src/main.rs:225-261 | setting up MQTT costs a process at most one session |
| SupervisorRuns.BridgeMatchesRadio | src/main.rs:184-272 | a bridge runs on its session's report and only once everything is installed; on the channels the radio then reports, if and only if Raven's are named; all with downlink if the session began in proxy mode |
| SupervisorConvergence.ProcessConverges | src/main.rs:103-272 | over the sessions of a run, failed ones and a fallback of the ingress included, one that runs a bridge leaves the table of the whole named list up to downlink flags and runs with its keys; exactly an uninterrupted first session's table if the ingress is the same or no name has two keys; in the latter case no later session installs anything, in either ingress |
| SupervisorConvergence.LaterSessionsQuietExactly | src/main.rs:103-272 | once a session has run a bridge, a later complete one installs nothing, if and only if every Raven channel has a name and no name has two keys |

## Left out

- Convergence.InstallationIsRestartable: assumes the radio reports ascending non-negative indices, that no index given out reaches 2^31 (one free index for each Raven channel is enough, by RoomFits), that the radio keeps exactly what is installed, and that preset, Raven list and ingress stay the same between the sessions.
- SupervisorConvergence.ProcessConverges: assumes the same from some session on, except that the ingress may fall back; with an unnamed Raven channel nothing converges, and LaterSessionsQuietExactly says what is left.
- Convergence.BridgeAndRadioAgree: assumes the radio reports ascending non-negative indices with room below 2^31, which the handshake does not check.
- LanDelivery.PhoneDelivery: that the receiving radio keeps the LAN stamp when it reports the packet is up to its firmware, and the bridge relies on it; that its reader is the one of this repository is assumed.
- PacketCrypto.RoundTripAcrossBridges: says nothing more when an earlier channel opens the packet first; AnagramTakesPackets shows what can then happen.
- Real ports, sockets, threads, sleeps and logging; failed writes matter only where the code acts on them.
- Protobuf encoding, base64, AES itself and the JSON parser are not part of this model.
- `wait_for_reboot` appears as its three outcomes; frames behind the reboot message in the same read are lost by the code, and the next handshake asks for everything again.
- The list of candidate ports: file system, `/proc`, natural sorting and removing repeated devices.
- `parse_namekey`, reconnect delays, command line, packaging and the rest of the stress harness.
- Arithmetic is the release build's: a channel index past 32 bits would wrap around, where a debug build would stop.
