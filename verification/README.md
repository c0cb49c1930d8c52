# Comelit intercom bridge: a verified model

A model, in Dafny 4.11, of the stateful core of the Comelit local integration, with proofs of what that
core is for. `dafny verify dfyconfig.toml` checks all of it.

Four parts are modelled, each following the branches, constants and error paths of the Python code:

* **Media path.** RTP packets are reassembled into H.264 NAL units (section 5.8 of RFC 6184), and the RTSP
  server sends them out again either by re-packetizing (`H264`, `VideoPaths`, `RtpReceiver`, `RtspServer`) or by
  forwarding packets under a rewritten header. `FuaRoundTrip`, `ReassemblyTrace` and `PathEquivalence` prove the
  round trip, what the reassembler's buffer is after any packets whatever, and that the two paths deliver the
  same timed NAL units; `WireBytes` says byte by byte what is written and read. `VideoClock` and `AudioClock`
  follow the wrapping timestamps with unbounded clocks, and `MediaSync` the two against each other;
  `InterleavedStream` is the chunked parser (section 10.12 of RFC 2326), `MicPath` the microphone direction.
* **Channel multiplexer.** `ChannelRegistry` is the insertion-ordered registry and the whole-run argument that
  replies without correlation ids open the right channels; `Delivery` is every interleaving of packets, JSON
  requests, timeouts and cancellations; `Client` is the client class, proved against both; `CommandBytes` starts
  from the bytes of the packets; `ChannelOpen` is the recovery of the device's request id.
* **Ring, missed-call and session coordinator.** `Coordinator` holds the fields and what runs between two
  awaits; `CoordinatorRuns` interleaves the tasks at their awaits; `MissedCalls` follows which ring each missed
  call is for, and `IdleFrames`, `RingPushes` and `MissCauses` tell from the events of a run alone what is pushed
  and why; `UserStop` is the user's stop against automatic restarts; `RingDedup` is the suppression of
  retransmitted rings.
* **CTPP call signalling.** `CallCounter` is the call counter driven by arbitrary device replies; `CtppMessage`
  the encoders and the address-scanning parser.

State that the program updates in place is modelled by classes (`RtpReceiver`, `LocalRtspServer`, `TcpClient`,
`MicSender`, `IconaBridgeClient`, `Channel`, `Future`, `ComelitLocalCoordinator`, `VideoCallSession`, `Queue`),
each method being one stretch of code between two awaits or one loop, and each proved equal to a function on
values; the whole-run theorems are about those functions. Bits are written as arithmetic, integers are unbounded
unless a wrap-around is written out, and asyncio queues are sequences with a capacity. Timeouts, lost writes and
the order in which tasks run are arbitrary.

Places where the code and its own comments or tests suggest different things, and the model follows the code:

* `reset` is commented as never moving the output timestamp backwards; it takes the larger of two 32-bit values
  by plain comparison, which is a serial step forward exactly when the audio clock is at most half the circle
  past the output (`SeedForwardExactly`, over whole runs `ForwardExactly`, with a jump back in `SeedCanJumpBack`).
* `reset` also means to continue at the time the audio has played. It converts the wrapped 32-bit audio timestamp,
  whose circle is not a whole number of video circles, so that holds exactly when the audio has wrapped a multiple
  of four times (`SeedsToSecondsExactly`).
* A stop by the user is meant to hold against automatic restarts. It holds against those that have not been checked
  when it comes; a restart past its check, for example one that is reconnecting, publishes its session
  (`StopHoldsExactly`, `StopDuringReconnect`).
* A missed call is meant to fire once per ring; a stop within 45 s of the ring followed by an idle frame fires
  two (`TwoMissesForOneRing`). Never more than two fire, and `MissesOfEveryRing` says exactly when a ring fires
  two: an idle frame passes its guard while the last ring time is that ring's, and the ring is also ended unheard.
  Where no idle frame passes its guard it fires once at most (`AtMostTwoMissesPerRing`).
* Every data packet is meant to reach a request, a queue or the unsolicited path; one that arrives under a
  callback that no outstanding request waits for reaches none (`PacketHasOneDestination` says exactly when,
  `AbandonedRequestLosesReply` that it happens).
* A channel opened under a name already in use can take the reply of an earlier open (`ReusedNameIsMismatched`;
  `OpenJoinsEndExactly` says exactly when the order survives).
* Our own channel-open body does not terminate the channel name, so the scan used for device-initiated opens
  recovers its id only for some ids (`UnterminatedNameRecoversExactly`).

## Model

| member | source | states |
|---|---|---|
| FuaRoundTrip.RoundTrip | custom_components/comelit_man/rtsp_server.py:946-993 | for every sequence of NALs of any length, from any stale reassembly state, feeding the server's packets to the receiver queues exactly start code + each NAL, in order, with its timestamp |
| FuaRoundTrip.CarriedExactly | custom_components/comelit_man/rtp_receiver.py:401-448 | a NAL survives from every stale state if and only if it is longer than one packet or of type 1 to 23 |
| FuaRoundTrip.FragmentsComplete | custom_components/comelit_man/rtp_receiver.py:450-476 | an oversize NAL of any type comes back whole, once, and leaves the buffer empty |
| WireBytes.OversizeFragments | custom_components/comelit_man/rtsp_server.py:969-993 | a NAL of more than 1400 bytes leaves in exactly as many packets as its payload fills chunks of 1398 bytes, at least two; packet i holds indicator, header and chunk i byte for byte, with S only on the first, E and marker only on the last, consecutive numbers and one timestamp |
| WireBytes.SinglePacketBytes | custom_components/comelit_man/rtsp_server.py:948-958 | a NAL of at most 1400 bytes is the payload of one packet with the marker, byte for byte |
| WireBytes.RewrittenBytes | custom_components/comelit_man/rtsp_server.py:874-886 | a forwarded packet keeps the first byte, marker and payload of the device; type 96, number, timestamp and source 0xC0DE1234 stand at their bytes |
| WireBytes.ReadByReassembler | custom_components/comelit_man/rtp_receiver.py:401-448 | from the bytes of a packet: which are video, which NAL types are queued behind 00 00 00 01, which are fragments, and that all others change nothing |
| WireBytes.ReadFragment | custom_components/comelit_man/rtp_receiver.py:450-476 | from the bytes of a fragment: what begins, grows and ends a NAL, and the header rebuilt from the two first bytes |
| WireBytes.ReadAudio | custom_components/comelit_man/rtp_receiver.py:409-412 | what is queued for the audio loop is bytes 12 and on of a packet of version 2 and type 0 or 8, if there are any |
| WireBytes.StartCodeTaken | custom_components/comelit_man/rtsp_server.py:930-935 | a start code of four bytes, or else of three, is taken off, and nothing else |
| ReassemblyTrace.BufferIsTrace | custom_components/comelit_man/rtp_receiver.py:450-476 | after any packets, lost or reordered, the buffer is empty or start code, rebuilt header and the payloads of all fragments since the last start fragment, with its timestamp |
| ReassemblyTrace.QueuedIsTrace | custom_components/comelit_man/rtp_receiver.py:465-476 | a fragment queues a NAL exactly when it ends one that was begun, and that NAL is made only of the fragments since its own start |
| PathEquivalence.PathsAgree | custom_components/comelit_man/rtsp_server.py:833-944 | for every well-formed device stream, from equal translation states and any numbers and stale buffers, forwarding and re-packetizing deliver the same timestamped NALs and end in the same translation state |
| PathEquivalence.OneUnit | custom_components/comelit_man/rtsp_server.py:846-993 | for one NAL or fragment run both paths deliver its bytes at the once-translated timestamp |
| PathEquivalence.UnitReassembles | custom_components/comelit_man/rtp_receiver.py:431-476 | a contiguous fragment run is reassembled from any stale state to the NAL it carries |
| VideoPaths.KeepsLastOfPackets | custom_components/comelit_man/rtsp_server.py:867-872 | the parameter set kept while forwarding is the payload of the last packet of its type with more than one payload byte, or the one kept before |
| VideoPaths.KeepsLastOfNals | custom_components/comelit_man/rtsp_server.py:938-942 | while re-packetizing it is the last NAL of its type |
| VideoClock.Stutter | custom_components/comelit_man/rtsp_server.py:896-921 | translating a repeated timestamp again changes nothing, so all packets of a frame get one output timestamp |
| VideoClock.TranslateAdvance | custom_components/comelit_man/rtsp_server.py:896-921 | each translation moves the output by the exact device step when that is at most 2^31, by 1 on a rebase, and keeps last timestamp + offset = output mod 2^32 |
| VideoClock.SeedsToAudioTime | custom_components/comelit_man/rtsp_server.py:370-377 | a reset seeds the output to x mod 2^32 for the x with 4x <= 45 * audio timestamp < 4x + 4, unless the output is ahead of that by plain comparison |
| MediaSync.SeedsToSecondsExactly | custom_components/comelit_man/rtsp_server.py:370-377 | on a fresh server, after n seconds of audio without pauses, a reset seeds the output to 90000n mod 2^32 if and only if 8000n has wrapped 2^32 a multiple of four times, as in the first 149 hours |
| VideoClock.SeedForwardExactly | custom_components/comelit_man/rtsp_server.py:370-377 | a reset steps serially forward if and only if the converted audio clock is at most 2^31 past the output |
| VideoClock.SeedCanJumpBack | custom_components/comelit_man/rtsp_server.py:376 | a concrete reset that steps backwards in serial order |
| VideoClock.OutputIsLiftedClock | custom_components/comelit_man/rtsp_server.py:896-921 | over any mix of device timestamps and resets the 32-bit output is, modulo 2^32, a clock without wrap-around defined from the events alone: the device step if at most 2^31, else 1; for a reset what the audio clock is ahead |
| VideoClock.GainIsSerialStep | custom_components/comelit_man/rtsp_server.py:896-921 | each event moves the output serially by exactly that gain, and keeps last timestamp + offset = output mod 2^32 |
| VideoClock.ForwardExactly | custom_components/comelit_man/rtsp_server.py:370-377 | every step of a run is serially forward if and only if every reset finds the audio clock at most 2^31 past the output |
| VideoClock.NeverDecreases | custom_components/comelit_man/rtsp_server.py:896-921 | between any two points of a run the output moves by what the unbounded clock gained between them, which is never negative |
| VideoClock.TracksSteadyDevice | custom_components/comelit_man/rtsp_server.py:903-921 | while the device clock neither restarts nor stalls past half the circle, output minus first output equals elapsed device time |
| AudioClock.AdvanceIsMediaTime | custom_components/comelit_man/rtsp_server.py:1020-1048 | consecutive audio timestamps differ by the previous payload length, or by floor(gap * 8000) with the marker set exactly when the gap is at least 0.5 s |
| AudioClock.StampIsUnbounded | custom_components/comelit_man/rtsp_server.py:1020-1048 | in every run each timestamp is the unbounded media clock mod 2^32 |
| AudioClock.StrictlyIncreasing | custom_components/comelit_man/rtsp_server.py:1020-1048 | the unbounded media clock strictly increases over every run of the non-empty payloads the receiver queues |
| AudioClock.PauseReadsForward | custom_components/comelit_man/rtsp_server.py:1023-1030 | a pause is read as a step forward on the 32-bit circle if and only if it is under 2^31/8000 s (pauses under a full turn) |
| AudioClock.CountsSamples | custom_components/comelit_man/rtsp_server.py:1032-1048 | without pauses a fresh audio clock is the number of samples sent mod 2^32 |
| RtspServer.LocalRtspServer.Broadcast | custom_components/comelit_man/rtsp_server.py:790-831 | every client with a channel for the packet, not closing and whose transport accepts the write, gets exactly that packet; those and the clients without such a channel remain, all others are dropped; each remaining client has exactly the video handed out since it joined |
| RtspServer.LocalRtspServer.SendVideo | custom_components/comelit_man/rtsp_server.py:949-968 | one packet takes the next number and reaches the clients as in a broadcast, and the report totals stay equal to packets and payload octets since the last reset |
| RtspServer.LocalRtspServer.TranslateVideoTs | custom_components/comelit_man/rtsp_server.py:896-921 | updates the four timestamp fields as the translation function does |
| RtspServer.LocalRtspServer.SendH264 | custom_components/comelit_man/rtsp_server.py:946-993 | broadcasts exactly the specified packets of the NAL and advances the number by their count |
| RtspServer.LocalRtspServer.DrainNalQueueFallback | custom_components/comelit_man/rtsp_server.py:923-944 | empties the NAL queue, broadcasting the specified re-packetized stream and keeping the parameter sets specified |
| RtspServer.LocalRtspServer.ForwardPacket | custom_components/comelit_man/rtsp_server.py:856-889 | forwards one raw packet as specified, ignoring short and empty ones, and keeps its parameter set if it carries one, as specified |
| RtspServer.LocalRtspServer.DrainRtpQueue | custom_components/comelit_man/rtsp_server.py:844-889 | forwards the whole raw queue as the pass-through specification says, and keeps the parameter sets specified |
| RtspServer.LocalRtspServer.PrimeClientWithParameterSets | custom_components/comelit_man/rtsp_server.py:714-755 | the numbers handed out, the packets the client gets and the writes used are exactly those of sending the non-empty parameter sets in order until a write fails; nothing without a video channel |
| RtspServer.PrimingStopsAtFailure | custom_components/comelit_man/rtsp_server.py:734-750 | that sends each parameter set at most once and in order, with nothing after a failed write and nothing missing without one |
| RtspServer.PrimesOfSets | custom_components/comelit_man/rtsp_server.py:734-746 | the packets priming would send are the non-empty parameter sets in order, type 96, no marker, numbered one after the other at one timestamp |
| RtspServer.LocalRtspServer.Play | custom_components/comelit_man/rtsp_server.py:455-478 | a client joins at the current number, after the others, and is primed |
| RtspServer.LocalRtspServer.DisconnectClients | custom_components/comelit_man/rtsp_server.py:314-333 | drops every client and keeps the numbering |
| RtspServer.LocalRtspServer.Reset | custom_components/comelit_man/rtsp_server.py:335-409 | empties the queues, seeds the output clock, zeroes the report totals, keeps the numbering, and primes every connected client in turn, each getting exactly what priming at its place in the numbering sends |
| RtspServer.LocalRtspServer.SendAudio | custom_components/comelit_man/rtsp_server.py:1017-1052 | the packet carries number, timestamp, marker, payload, type 8 and source 0xA0D10001, reaches the clients as in a broadcast, and the audio report totals and the next audio state follow |
| RtspServer.LocalRtspServer.ClientGaps | custom_components/comelit_man/rtsp_server.py:734-750 | on a server at any moment, two packets a client received one after the other carry positions of the numbering modulo 2^16, later above earlier, and every number in between went to another client being primed or to a failed priming write of its own |
| RtspServer.LocalRtspServer.ClientMissesNothing | custom_components/comelit_man/rtsp_server.py:790-831 | every number broadcast since a client joined, and every delivered prime of its own, is the number of a packet it holds |
| RtpReceiver.RtpReceiver.ProcessRtp | custom_components/comelit_man/rtp_receiver.py:401-448 | routes by version and payload type, reassembles as specified, and offers to the NAL, raw and audio queues exactly what belongs there |
| RtpReceiver.RtpReceiver.ProcessFua | custom_components/comelit_man/rtp_receiver.py:450-476 | one fragment's effect on buffer, timestamp and queues |
| RtpReceiver.RtpReceiver.QueueNal | custom_components/comelit_man/rtp_receiver.py:516-539 | a NAL goes to the decoder queue and, only without pass-through, to the server's NAL queue, dropping when full |
| RtpReceiver.RtpReceiver.ProcessAudioRtp | custom_components/comelit_man/rtp_receiver.py:478-496 | non-empty audio payloads are offered to the audio queue |
| RtpReceiver.RtpReceiver.TcpVideoLoop | custom_components/comelit_man/video_call.py:606-629 | depacketizes exactly the bodies of at least 12 bytes, in order |
| RtpReceiver.KeepsTwelve | custom_components/comelit_man/video_call.py:606-629 | body by body, exactly those of at least twelve bytes are processed |
| AsyncQueue.OfferWithRoom | custom_components/comelit_man/rtp_receiver.py:516-539 | with room for all items nothing is dropped and order is kept |
| AsyncQueue.OfferKeepsFirst | custom_components/comelit_man/rtp_receiver.py:516-539 | a bounded queue keeps what was there and the first of the rest that fit, in order, and drops what comes later |
| InterleavedStream.ReadClientStream | custom_components/comelit_man/rtsp_server.py:624-666 | for every split into reads and timeouts, frames delivered, residual buffer and TEARDOWN outcome are those of parsing the concatenation at once |
| InterleavedStream.ParseResumes | custom_components/comelit_man/rtsp_server.py:644-666 | parsing the residue with later bytes continues as if all had been parsed at once |
| InterleavedStream.FramingRoundTrip | custom_components/comelit_man/rtsp_server.py:807 | parsing framed packets returns exactly those packets with nothing left over |
| InterleavedStream.ContainsExactly | custom_components/comelit_man/rtsp_server.py:665 | the infix test holds if and only if the word stands at some index of the line |
| InterleavedStream.ParsesPieces | custom_components/comelit_man/rtsp_server.py:644-666 | for every list of frames on any channels and newline-ended text lines, followed by an unfinished one, parsing gives exactly the packets on the client's channel before the first line with TEARDOWN in it, and ends the session if and only if there is one |
| InterleavedStream.StreamIsPieces | custom_components/comelit_man/rtsp_server.py:644-666 | every stream is such a list followed by an unfinished piece |
| MicPath.PayloadRecovered | custom_components/comelit_man/rtsp_server.py:668-699 | any valid packet of type 0 or 8 with any CSRC list and header extension gives its payload, or nothing if that is empty |
| MicPath.OthersIgnored | custom_components/comelit_man/rtsp_server.py:675-692 | packets too short, of another type, or ending within the CSRC list or header extension they announce are ignored |
| MicPath.NormalizedExactly | custom_components/comelit_man/rtsp_server.py:679-694 | a payload of type 8 is queued as it is, one of type 0 with every byte looked up in the table, and nothing else is queued |
| MicPath.RunConserves | custom_components/comelit_man/rtp_receiver.py:251-308 | for every interleaving of arrivals and ticks: input = sent and trimmed stretches in order + buffer, bytes in = 160 * real frames + trimmed + buffered, and the queue is the newest 500 unconsumed payloads in order |
| MicPath.TrimsExactly | custom_components/comelit_man/rtp_receiver.py:272-273 | a tick trims if and only if queue and buffer together exceed 6400 bytes |
| MicPath.TickExactly | custom_components/comelit_man/rtp_receiver.py:264-287 | of the buffer and all that was queued a tick keeps the newest 3200 bytes if there are more than 6400, sends the first 160 of what is kept, or 160 bytes of silence, and buffers the rest |
| MicPath.LeavesWithinFortyTicks | custom_components/comelit_man/rtp_receiver.py:264-277 | every complete frame present at a tick has been sent or trimmed when that tick and 39 more are over, whatever arrives |
| MicPath.MicSender.OnBackchannelRtp | custom_components/comelit_man/rtsp_server.py:668-712 | queues the payload, translated if mu-law, dropping the oldest when full; ignores everything else |
| MicPath.MicSender.SendTick | custom_components/comelit_man/rtp_receiver.py:259-308 | each tick sends one 160-byte frame, real or silent, with number n mod 2^16 and timestamp 160n mod 2^32 |
| ChannelRegistry.RepliesMatchOpens | custom_components/comelit_man/client.py:275-287 | in every run where opens join the end of the pending order, the device replies only to opens and no pending open is abandoned or renamed, the k-th reply opens exactly the k-th channel sent |
| ChannelRegistry.MatchedExactly | custom_components/comelit_man/client.py:237-287 | an event other than a renaming keeps replies and opens matched if and only if it is such an event |
| ChannelRegistry.OnlyOrderlyRunsMatch | custom_components/comelit_man/client.py:237-287 | so without renamings those runs are exactly the ones in which they stay matched |
| ChannelRegistry.ReplyTakesHead | custom_components/comelit_man/client.py:278-287 | a reply fills the first pending open in registry order and leaves the others pending in order |
| ChannelRegistry.OpenJoinsEndExactly | custom_components/comelit_man/client.py:352-357 | a client open joins the end of the pending order if and only if no pending open is registered at or after the place its name takes |
| ChannelRegistry.ReusedNameIsMismatched | custom_components/comelit_man/client.py:357 | a concrete run in which reusing an open channel's name gives a reply to the wrong channel |
| ChannelRegistry.OpenedOnceByItsOwnKind | custom_components/comelit_man/client.py:237-287 | whatever happens: an open channel keeps its id, placeholders are opened only by device-initiated opens and client opens only by replies |
| ChannelRegistry.IdsAreNeverReassigned | custom_components/comelit_man/client.py:259-287 | over any run a channel once open keeps its id, request id and queue through every registry change |
| ChannelRegistry.RunKeepsSerials | custom_components/comelit_man/client.py:442-479 | over any run no channel appears twice in the registry |
| ChannelRegistry.DeviceOpenKeepsPending | custom_components/comelit_man/client.py:259-273 | a device-initiated open leaves the pending client opens as they were |
| ChannelRegistry.RenameKeepsPending | custom_components/comelit_man/client.py:469-479 | renaming a channel that is not pending leaves the pending order as it was |
| ChannelRegistry.PutIsAssignment | custom_components/comelit_man/client.py:357 | registering replaces what had the name, in its place, or adds the name at the end |
| ChannelRegistry.RemoveIsDeletion | custom_components/comelit_man/client.py:453-467 | removing deletes the name and keeps the order of the others |
| ChannelRegistry.RenameIsMove | custom_components/comelit_man/client.py:469-479 | renaming moves the channel to the new name as deletion and assignment do |
| CommandBytes.ReplyOpens | custom_components/comelit_man/client.py:275-287 | a body CD AB, a sequence number other than 1, four bytes and an id opens the first pending client open with that id |
| CommandBytes.ShortReplyOpens | custom_components/comelit_man/protocol.py:138-148 | a command too short for an id opens it with id 0 |
| CommandBytes.DeviceOpens | custom_components/comelit_man/client.py:237-273 | a body with sequence number 1 and a terminated name opens the first placeholder with the id after the name |
| CommandBytes.OthersChangeNothing | custom_components/comelit_man/client.py:226-236 | a packet of another type or under four bytes changes nothing |
| CommandBytes.PacketsAreEvents | custom_components/comelit_man/client.py:226-287 | for every run of such bodies and of our own changes the registry is that of the events they stand for |
| CommandBytes.ReplyBodiesMatchOpens | custom_components/comelit_man/client.py:226-287 | in every orderly run of bodies as they come off the connection the k-th reply body opens the channel of the k-th open sent |
| Client.IconaBridgeClient.Dispatch | custom_components/comelit_man/client.py:190-224 | a packet goes to command handling, else to the future registered under its id, else to the first open channel with the id, else to the unsolicited path; everything else is unchanged |
| Client.IconaBridgeClient.DispatchCommandResponse | custom_components/comelit_man/client.py:226-287 | a command opens the first placeholder, or the first pending client open, or nothing, by type, sequence and length |
| Client.IconaBridgeClient.OpenChannel | custom_components/comelit_man/client.py:340-357 | takes the next request id and registers the channel before anything is sent |
| Client.IconaBridgeClient.RegisterPlaceholderChannel | custom_components/comelit_man/client.py:442-451 | registers a channel with request id 0 |
| Client.IconaBridgeClient.RemoveChannel | custom_components/comelit_man/client.py:453-467 | removes the entry and keeps the order of the others |
| Client.IconaBridgeClient.RenameChannel | custom_components/comelit_man/client.py:469-479 | moves the channel to the end under its new name, replacing an entry of that name |
| Client.IconaBridgeClient.BeginRequest | custom_components/comelit_man/client.py:391-404 | refuses a channel that is not open, else registers a fresh future under its id |
| Client.IconaBridgeClient.Disconnect | custom_components/comelit_man/client.py:109-114 | empties registry and callbacks, and cancels exactly the futures not yet done |
| Delivery.LockProtectsRequests | custom_components/comelit_man/client.py:394-419 | in every run where open channels have different ids, requests are made on open registered channels and no channel is dropped under a request, a future still waited for stays the one registered under its channel |
| Delivery.RequestsAreNeverOverwritten | custom_components/comelit_man/client.py:394-419 | the same in every run where outstanding requests have different ids, whatever the registry does |
| Delivery.ReplyReachesRequest | custom_components/comelit_man/client.py:197-202 | the next packet on a waiting request's channel resolves its future and touches nothing else |
| Delivery.ResolvedAtMostOnce | custom_components/comelit_man/client.py:199-201 | over any run a future that has a result or was cancelled never changes |
| Delivery.PacketHasOneDestination | custom_components/comelit_man/client.py:196-224 | a data packet adds one to what outstanding requests, channel queues and the unsolicited path hold, unless its id has a callback whose future no outstanding request waits for; then, and only then, it is lost |
| Delivery.AbandonedRequestLosesReply | custom_components/comelit_man/client.py:402-410 | a request cancelled while waiting, or given up while its write is pending, leaves such a callback, and the packet answering it is lost |
| Delivery.TimeoutLeavesNothing | custom_components/comelit_man/client.py:404-415 | a request that times out leaves no callback and a cancelled future, and its late reply is queued or unsolicited like any packet |
| Delivery.QueuesKeepArrivalOrder | custom_components/comelit_man/client.py:204-212 | over any run a channel's queue holds, in arrival order, what was queued on it and not yet read |
| ChannelOpen.TerminatedNameRecovers | custom_components/comelit_man/client.py:243-246 | from a body whose channel name is terminated every request id is recovered |
| ChannelOpen.UnterminatedNameRecoversExactly | custom_components/comelit_man/client.py:243-249 | from an unterminated body, as our encoder builds, the id is recovered if and only if its low byte is nonzero, or id and trailing byte are both zero |
| ChannelOpen.OpenBody | custom_components/comelit_man/protocol.py:97-107 | the body is a command with the given sequence and name, and carries the id in the two bytes before its last |
| CoordinatorRuns.MissedCallCredit | custom_components/comelit_man/coordinator.py:520-688 | over every interleaving: missed calls + [last ring time set] + [pending ring set] + undecided inbound starts <= 2 * accepted rings; and where no idle frame passes its guard, missed calls + [pending ring set] + undecided starts <= accepted rings |
| CoordinatorRuns.AtMostTwoMissesPerRing | custom_components/comelit_man/coordinator.py:580-602 | from a fresh coordinator no run fires more than two missed calls per accepted ring, and none in which no idle frame passes its guard more than one |
| MissedCalls.MissesOfEveryRing | custom_components/comelit_man/coordinator.py:580-681 | every missed call belongs to an accepted ring, and a ring fires one if an idle frame passes its guard while the last ring time is its own, plus one if it is stopped while pending and unanswered or its own start fails: two if and only if both happen |
| MissCauses.MissesFromEvents | custom_components/comelit_man/coordinator.py:580-681 | the same told from the events of a run alone: one missed call if an idle frame comes within 45 s of the ring with nothing in between that cleared or followed it, no session and no answer; one if a session is taken while the ring waits with no answer since the last ring, or the ring's own start fails |
| MissCauses.MissedOnce | custom_components/comelit_man/coordinator.py:580-681 | for each ring there is at most one such idle frame and at most one such end |
| MissCauses.PushesFromEvents | custom_components/comelit_man/coordinator.py:548-681 | what every event of a run pushes: one missed call or ring push with the entrance of the ring it ends unheard or announces, one missed call with the first address of an idle frame that misses a ring, else nothing |
| IdleFrames.IdleFiresExactly | custom_components/comelit_man/coordinator.py:580-602 | over every run: an idle frame fires, with its first address, if and only if the last accepted ring came at most 45 s before, was not used by an idle frame or cleared by a failed start since, no session is published and no answer completed since |
| IdleFrames.RingsAcceptedExactly | custom_components/comelit_man/coordinator.py:520-561 | over every run whose rings do not go back in time: a ring is accepted if and only if no accepted ring of its entrance and ring timestamp came less than 120 s before, whichever way either came |
| CoordinatorRuns.TwoMissesForOneRing | custom_components/comelit_man/coordinator.py:840-854 | a run of one ring, its passive session, a stop and an idle frame that fires two |
| CoordinatorRuns.CreditStep | custom_components/comelit_man/coordinator.py:604-681 | no segment of any task adds credit, and an event adds at most two per ring it accepts, or one when idle frames that pass their guard are set aside |
| CoordinatorRuns.NoMissAfterAnswer | custom_components/comelit_man/coordinator.py:683-688 | once an answer completed with no inbound start undecided, no missed call fires in any run until another ring is accepted |
| CoordinatorRuns.AnswerQuiets | custom_components/comelit_man/coordinator.py:683-688 | the answer's last segment establishes that situation |
| CoordinatorRuns.SingleFlight | custom_components/comelit_man/coordinator.py:400-480 | over every interleaving of starts, rings, stops, reconnects, answers and cancellations: at most one start is under way, the ready event is set exactly when a session is published, only completed starts are published, each at most once, and each session is taken by at most one stop |
| CoordinatorRuns.SingleFlightFromStart | custom_components/comelit_man/coordinator.py:614-659 | in particular from a fresh coordinator |
| CoordinatorRuns.SessionsTake | custom_components/comelit_man/coordinator.py:834-838 | the session a stop takes was never taken before and is gone |
| UserStop.StopHolds | custom_components/comelit_man/coordinator.py:408-417 | once the user has stopped and no start is under way, no run publishes a session before the user or a ring starts one, however many automatic restarts are scheduled |
| UserStop.StopHoldsExactly | custom_components/comelit_man/coordinator.py:408-430 | that holds in every such run if and only if no start is past its checks as the stop comes |
| UserStop.FlagExactly | custom_components/comelit_man/coordinator.py:430 | the flag is set by the user's stop and cleared by exactly the starts that pass their checks |
| UserStop.StopDuringReconnect | custom_components/comelit_man/coordinator.py:423-430 | a restart that was reconnecting as the user stopped is one |
| Coordinator.ComelitLocalCoordinator.OnInboundRing | custom_components/comelit_man/coordinator.py:520-546 | a ring not seen within 120 s is recorded, prunes the map and schedules a start; another changes nothing |
| Coordinator.ComelitLocalCoordinator.OnRingDuringVideo | custom_components/comelit_man/coordinator.py:548-578 | the same decision, with the ring pending and fired at once, without pruning |
| Coordinator.ComelitLocalCoordinator.OnCallIdle | custom_components/comelit_man/coordinator.py:580-602 | fires only without a session, unanswered, within 45 s of the last ring, and then forgets that ring |
| Coordinator.ComelitLocalCoordinator.BeginStopVideo | custom_components/comelit_man/coordinator.py:834-854 | takes the session, clears the ready event and the pending ring, firing a missed call if it was unanswered |
| Coordinator.ComelitLocalCoordinator.BeginInboundVideo | custom_components/comelit_man/coordinator.py:612-622 | enters only with a free lock and a client |
| Coordinator.ComelitLocalCoordinator.BeginVideo | custom_components/comelit_man/coordinator.py:400-431 | refused with the lock held, without a client, and as an auto-restart after the user's stop; on a dead connection it keeps the lock and reconnects; else it enters, handing over the session to stop |
| Coordinator.ComelitLocalCoordinator.ContinueVideo | custom_components/comelit_man/coordinator.py:423-431 | after the reconnect the start enters, or releases the lock |
| CoordinatorRuns.HandlersAreSteps | custom_components/comelit_man/coordinator.py:520-602 | what ring and idle events do to the fields in every interleaving is what the class's handlers do, and a start is scheduled exactly for a new listener ring |
| CoordinatorRuns.InboundSegmentsAreSteps | custom_components/comelit_man/coordinator.py:604-681 | each segment of an inbound start changes the fields as the class's method for it does, the lock being released by the start that holds it |
| CoordinatorRuns.OutboundSegmentsAreSteps | custom_components/comelit_man/coordinator.py:400-483 | the same for a start by the user or an auto-restart |
| CoordinatorRuns.OtherSegmentsAreSteps | custom_components/comelit_man/coordinator.py:825-854 | the same for stops, reconnects and answers |
| RingDedup.PruningIsInvisible | custom_components/comelit_man/coordinator.py:527-561 | for every run with a non-decreasing clock over both entry points the pruned map decides as the full history would, and accepted rings with the same key are at least 120 s apart |
| RingDedup.TracksRing | custom_components/comelit_man/coordinator.py:527-538 | one ring keeps the map equal to what matters of the history |
| RingDedup.ListenerLeavesYoung | custom_components/comelit_man/coordinator.py:537-538 | after an accepted listener ring every kept entry is younger than 120 s |
| CallCounter.CountersOfEveryRun | custom_components/comelit_man/video_call.py:323-462 | in every run of start, renewals, answers and door commands the counters sent keep the low half of init timestamp + 1 (never that of the init phase), never decrease within a call, stay within the allowance of the call's timestamp, and fit 32 bits when it leaves that room |
| CallCounter.PhasesStayApart | custom_components/comelit_man/ctpp.py:61-65 | the init and its acknowledgement pair share the low half, and no counter sent in any run has it |
| CallCounter.CutShortInStep | custom_components/comelit_man/video_call.py:443-556 | a start or renewal that fails at any wait has sent only such counters |
| CallCounter.NegotiationIsCutShort | custom_components/comelit_man/video_call.py:443-450 | what a start sends whose device opens no channel is a beginning of the handshake |
| CallCounter.EndAckKeepsSession | custom_components/comelit_man/video_call.py:804-810 | the acknowledgement of a call end carries the low half of the call that ended, or that of the device's timestamp with bit 7 set |
| CallCounter.HandshakeKeeps | custom_components/comelit_man/video_call.py:774-874 | a start adds at most 0x0B0D0000 and a renewal at most 0x0B0E0000, whatever the device replies |
| CallCounter.CodecExchangeKeeps | custom_components/comelit_man/video_call.py:152-202 | the codec exchange keeps the low half and the order, and adds at most 0x01010000 per reply read |
| CallCounter.TimestampsDoNotMatter | custom_components/comelit_man/video_call.py:152-237 | devices whose replies agree in type and action, whatever their timestamps, are sent the same counters |
| CallCounter.AllowanceIsReached | custom_components/comelit_man/video_call.py:161-202 | ten replies of action 8 and a link reach the allowance exactly |
| CallCounter.ShapeOfBytes | custom_components/comelit_man/video_call.py:161-176 | type and action of a reply are its first two bytes, low first, and its seventh and eighth, high first, or 0 in a shorter one |
| CallCounter.AcceptedExchange | custom_components/comelit_man/video_call.py:161-202 | with a replies of action 8 and b others of type 0x1840 before the accept, the counter ends a * 0x01010000 + b * 0x00010000 + 0x01000000 higher, a + b + 1 messages are sent and the later replies are left |
| CallCounter.UnacceptedExchange | custom_components/comelit_man/video_call.py:161-202 | without an accept there is no last 0x01000000 and no last message |
| CallCounter.LinkedAck | custom_components/comelit_man/video_call.py:204-237 | the first link among at most the budget of replies is acknowledged with 0x01000000 more |
| CallCounter.UnlinkedAck | custom_components/comelit_man/video_call.py:204-237 | without a link nothing is sent |
| CallCounter.HandshakeInNumbers | custom_components/comelit_man/video_call.py:388-463 | counter, number of messages and replies left after a whole handshake, for starts and renewals |
| CallCounter.CommandsCount | custom_components/comelit_man/video_call.py:900-928 | over any run the counter is that of the last handshake plus 0x00010000 per command since |
| CallCounter.TransformedBytes | custom_components/comelit_man/video_call.py:50-59 | of the device's timestamp bit 7 of the first byte is set, the last two bytes change places and the new last one counts up |
| CallCounter.VideoCallSession.RunCodecExchange | custom_components/comelit_man/video_call.py:152-202 | counter, counters sent and replies consumed are those of the specification |
| CallCounter.VideoCallSession.AckDeviceRtpcLink | custom_components/comelit_man/video_call.py:204-237 | reads at most five replies and acknowledges at most one link |
| CallCounter.VideoCallSession.Start | custom_components/comelit_man/video_call.py:323-474 | the whole handshake's counters, or a failed session when the device opens no channel |
| CallCounter.VideoCallSession.InlineReestablish | custom_components/comelit_man/video_call.py:801-874 | acknowledges the call end, restarts from its own timestamp and sends one message more than a start |
| CtppMessage.AckRoundTrips | custom_components/comelit_man/protocol.py:403-418 | for every timestamp and all addresses of the accepted shape, an acknowledgement under any prefix the program sends parses back to prefix, timestamp, action and exactly [caller, callee] |
| CtppMessage.AckRoundTripsExactly | custom_components/comelit_man/vip_listener.py:71-111 | under an arbitrary prefix that holds if and only if the first six bytes are not all hexadecimal digits; otherwise they are reported as an address first |
| CtppMessage.InitRoundTrips | custom_components/comelit_man/protocol.py:159-183 | an init message parses back to its timestamp and [full, full, base] |
| CtppMessage.InitResolves | custom_components/comelit_man/vip_listener.py:356-374 | from those addresses the renewal acknowledgement resolves to full and base and to nothing else, in whatever order the set is walked |
| CtppMessage.MatchIsExact | custom_components/comelit_man/vip_listener.py:63 | the scanner matches n bytes at a position if and only if a terminated address of that length stands there |
| CtppMessage.AddressExactly | custom_components/comelit_man/vip_listener.py:63 | an accepted address is six to nine digits 0-9, A-F or a-f, with or without the letters SB before them |
| CtppMessage.MessageLayout | custom_components/comelit_man/protocol.py:159-183 | init and acknowledgement byte by byte |
| CtppMessage.CallTagExactly | custom_components/comelit_man/vip_listener.py:107-109 | the origin tag is the two bytes before the first run of four 0xFF bytes, if there is one with two bytes before it |
| CtppMessage.PairResolvesByLength | custom_components/comelit_man/vip_listener.py:366-374 | two addresses of different length that each occur once resolve to the longer and the shorter; fewer than two to the configured pair |
| CtppMessage.EncodeCallResponseAck | custom_components/comelit_man/protocol.py:403-418 | the buffer built step by step is the specified message |
| CtppMessage.EncodeCtppInit | custom_components/comelit_man/protocol.py:159-183 | the buffer built step by step is the specified message |

## Left out

- PathEquivalence.PathsAgree: assumes no queue overflows between receiver and server; what overflow drops is in the queue contracts.
- CallCounter.CountersOfEveryRun: does not cover the inbound call's counter, which wraps at 32 bits and starts from the ring's timestamp, or the acknowledgements the monitor sends from device timestamps.
- CoordinatorRuns.SingleFlight: rings, idle frames and the user's requests may come at any time, even when the listener that would report them is stopped, and every await may be interrupted, so the runs include more than the program's. A start that finds the lock held ends by its own check, in the same segment, so there is no state for one that waits on the lock. Whether the listener runs while a session is published is not modelled, and the program does not guarantee that it does not.
- Delivery.LockProtectsRequests: the code does not check that the device gives open channels different ids, nor that no request is outstanding on a channel it drops; both are conditions of the run.
- RtspServer.LocalRtspServer.Broadcast: the UDP client that may receive packets beside the TCP clients is not modelled.
- RtspServer.LocalRtspServer.DrainRtpQueue: the wait that turns to the NAL queue after three empty reads is not modelled; either queue may be drained at any time.
- RtspServer.LocalRtspServer.SendAudio: the choice between a queued payload and silence between calls is the caller's here.
- MicPath.MicSender.SendTick: the choice between TCP and UDP for the finished packet, and the framing header of the UDP case, are not modelled; the local variables of the sending loop are fields of the class.
- MicPath.MicSender.OnBackchannelRtp: the mu-law to A-law table is a parameter; its 256 entries are a finite check.
- Client.IconaBridgeClient.DispatchCommandResponse: the bytes of the reply to a device-initiated open and of the acknowledgement of a device-initiated close are not modelled, nor are the sequence number and response body kept on a channel.
- ChannelRegistry.MatchedExactly: for a renaming only one direction is proved; renaming a pending open may or may not move it past another.
- Client.IconaBridgeClient.Dispatch: the push callback is the list of unsolicited bodies; JSON decoding is not modelled.
- Packet headers of the bridge protocol (`encode_header`, `decode_header`), door-open sequences outside a call and the other fixed-layout encoders: straight-line constant layouts.
- RTCP Sender Report packets, RTSP request handling and SDP text, sockets and keepalive options, go2rtc signalling.
- PyAV decoding and JPEG encoding, and the snapshot taken with a ring.
- Home Assistant entities, configuration flow, diagnostics, authentication, provisioning and push registration.
- Real time: sleeps and timeouts are arbitrary steps; clocks are parameters.
- Event deduplication and address matching inside the listener (`_fire_event`, `address_matches`): the rings it forwards are arbitrary here.
