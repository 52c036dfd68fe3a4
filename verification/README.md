# Verification of the platform-free media receiver

This Dafny project models the receive path of the camera link and proves properties of the model. What is modelled is the
platform-free code in `shared/`, the browser's packetizer and the macOS PCM queue:

- the DataChannel video reorder buffer, its sender, and the two together;
- the RTP H.264 depacketizer and the engine that arbitrates between the two transports;
- Annex-B and length-prefixed access units;
- transport-wide congestion feedback and RTCP reception statistics;
- the bounded JSON reader and `quote`;
- the queue of compressed units, the callback gate, the PCM ring and the signaling run;
- the NV12 letterbox and the clock arithmetic.

Each component comes in the same three layers. A module of functions gives the behaviour on values (`DcModel`, `RtpModel`,
`EngineModel`, `TwccModel`, `RtcpModel`, `JsonModel`, `QueueModel`, `GateModel`, `PcmModel`, `SignalingModel`, `Nv12Model`). A
class or methods of the source's own form, with its fields, arrays and loops, are proved to compute exactly those functions
(`DcReceiver`, `RtpReceiver`, `Engine`, `TwccReceive`, `RtcpSession`, `JsonReading`, `VideoQueue`, `CallbackGating`, `PcmQueue`,
`SignalingWork`, `Nv12`). The laws are then lemmas about the functions: over one step, over every run, or against an independent
reference such as a reader written from a standard, an unbounded set, or a grammar.

Integers are unbounded; 16-, 24- and 32-bit quantities are cut where the code cuts them. Clocks, random choices, HTTP answers
and other surroundings are parameters, so each theorem holds for all of them. Callbacks are the returned list of effects, in the
order the code makes them. A thrown exception is `None`, `Over` or an outcome of its own.

Four places where a promise of the code or its comments holds only under a condition, which is proved exactly:

- Feedback is not built while the next 512 pending numbers hold no reception. The stall lasts exactly until a packet falls into a
  slot of that block or before it: `TwccRuns.StallLasts`; with no further packets it never ends: `TwccCoverage.BuildsSpeakUntilSilence`
  and `TwccCoverage.GapStalls`.
- Feedback need not be true: numbers 2048 apart share a slot, so one that never came can be reported as received. A packet is true
  exactly when no other number of a slot interfered, ahead or behind: `TwccTruth.TrueExactly`. None does while numbers stay within
  the ring: `TwccTruth.WindowRunIsTrue`. `TwccRuns.FalseReception` and `TwccTruth.LaterFalseReception` are inputs where one does. A
  stream that goes on after a gap leaves its stall in this way.
- Conversion to length prefixes may outgrow the 4 MiB cap, because a three-byte start code becomes four bytes:
  `AnnexBLaws.ConversionKeepsUnits` and `AnnexBLaws.ConversionCanOutgrowTheCap`.
- A delivered DataChannel unit reads back unless the added delimiter and parameter sets make it exceed 1024 NAL units:
  `DcEndToEnd.DeliveredReadsBack` and `DcEndToEnd.FullListDoesNotReadBack`.

To verify: `dafny verify dfyconfig.toml` (Dafny 4.11).

## Model

| member | source | states |
|---|---|---|
| EngineChain.DeliveredStreamIsDecodable | shared/receiver/engine/receiver_engine.cpp:8-78 | Over every interleaving of RTP packets, DataChannel packets, ticks, opens, closes, requests and resets, each access unit handed out is printed from units with an IDR, SPS and PPS, or continues the unit handed out before it: same transport, nothing reset between, DataChannel number exactly one higher modulo 2^16, or RTP packets unbroken. |
| EngineChain.SwitchStartsAtIdr | shared/receiver/engine/receiver_engine.cpp:19-22 | Every change of transport, and the first unit after a start, close or reset, is an IDR with its parameter sets. |
| EngineChain.SwitchIsConfigured | shared/receiver/engine/receiver_engine.cpp:90-104 | The bytes of such a unit pass for a random access point exactly when they are a byte stream within the limits of the splitter. |
| EngineChain.StepSafe | shared/receiver/engine/receiver_engine.cpp:29-78 | The invariant behind both, kept by every single event: while RTP video is live and not waiting the last thing was an RTP delivery, and likewise for the DataChannel. |
| EngineEffects.HandlersSee | shared/receiver/engine/receiver_engine.cpp:80-104 | In every run the frame handler gets exactly the logged deliveries in order, and between resets keyframe requests are at least 50 ms apart whatever the clock does. |
| EngineRequests.NeedIs | shared/receiver/engine/receiver_engine.cpp:9-104 | In every run a keyframe is needed exactly until a frame with SPS, PPS and IDR is handed out, and again from the next loss, request, close or reset on. |
| EngineRequests.RetriedByTick | shared/receiver/engine/receiver_engine.cpp:52-56 | In every run, after a timer tick with a keyframe still needed, one was requested less than 50 ms before that tick, and not after it if the clock never runs backwards. |
| EngineRoutes.RequestsAreRouted | shared/receiver/engine/receiver_engine.cpp:80-88 | In every run a request goes over the control channel exactly if, since the last close or reset, the video DataChannel was opened or a frame from it was handed out before; otherwise it is an RTCP request. |
| EngineFrames.FramesAreStamped | shared/receiver/engine/receiver_engine.cpp:9-104 | In every run an event hands out exactly what the depacketizers hand up, in order; each frame record carries the arrival of the event, the generation set last, the random-access mark of its bytes, and a media time that shows its 32-bit timestamp and runs on from the frame before it over the same transport, until that is closed, reset or, for RTP, changes its source. |
| EngineFrames.ControlsAreSent | shared/receiver/engine/receiver_engine.cpp:19-66 | In every run the control handler gets exactly what the DataChannel receiver sends over its own run, in order. |
| Engine.ReceiverEngine.ProcessRtpVideoPacket | shared/receiver/engine/receiver_engine.cpp:29-44 | Payload-type gate, new-source reset of the unwrapper, then the depacketizer only while no DataChannel video runs; whole new state and all callbacks in order. |
| Engine.ReceiverEngine.ProcessDataChannelPacket | shared/receiver/engine/receiver_engine.cpp:46-50 | The DataChannel depacketizer at microseconds of the arrival, its callbacks carried through the engine; whole new state. |
| Engine.ReceiverEngine.OnTimer | shared/receiver/engine/receiver_engine.cpp:52-56 | The depacketizer tick, then a pending keyframe request; whole new state and effects. |
| Engine.ReceiverEngine.OnDataChannelVideoClosed | shared/receiver/engine/receiver_engine.cpp:58-66 | Both depacketizers and unwrappers reset, DataChannel path off, keyframe needed. |
| Engine.ReceiverEngine.Reset | shared/receiver/engine/receiver_engine.cpp:73-78 | As a close, and source and request time forgotten. |
| Engine.ReceiverEngine.RequestKeyframe | shared/receiver/engine/receiver_engine.cpp:68-71 | Marks the need and dispatches if the throttle allows. |
| Engine.ReceiverEngine.TryDispatch | shared/receiver/engine/receiver_engine.cpp:80-88 | One request per 50 ms, on the channel the policy picks. |
| Engine.ReceiverEngine.EmitFrame | shared/receiver/engine/receiver_engine.cpp:90-104 | The frame record with unwrapped ticks, arrival, generation and its random-access mark, which clears the need for a keyframe. |
| Engine.ReceiverEngine.OnRtpOuts | shared/receiver/engine/receiver_engine.cpp:9-18 | The RTP callbacks of one packet in order: frames dropped while DataChannel video runs, losses turned into requests. |
| Engine.ReceiverEngine.OnBatch | shared/receiver/engine/receiver_engine.cpp:19-26 | The DataChannel callbacks of one call in order: controls first, then frames, the first of which claims the path. |
| DcOrder.RunDelivers | shared/receiver/codec/dc_video_depacketizer.cpp:19-175 | Over every run with resets, deliveries strictly increase in (period, extended number), so across 16-bit wraps none is repeated or reordered, and each is an IDR with SPS and PPS or the direct successor of the one before. |
| DcOrder.StepIsChained | shared/receiver/codec/dc_video_depacketizer.cpp:53-175 | The same for one step from any state a run can leave, as the engine needs it. |
| DcOrder.RunBounds | shared/receiver/codec/dc_video_depacketizer.cpp:53-95 | Over every run: at most 32 frames and 2 MiB pending, bytes equal to the sum of stored chunks, bitrate within 2 to 8 Mbit/s; after each well-formed packet or tick the buffer is settled. |
| DcOrder.PlisAreSpaced | shared/receiver/codec/dc_video_depacketizer.cpp:40-48 | Between resets two picture-loss indications are at least 50 ms apart, for any clock. |
| DcControls.RunAsks | shared/receiver/codec/dc_video_depacketizer.cpp:40-95 | Over every run an event sends a picture-loss indication exactly if it gives a reason - a needed frame expires, a frame is skipped, refused or unfinished, the buffer overflows, a chunk contradicts a stored one, or at a tick a keyframe stays awaited - and none was sent in the 50 ms before; so after any reason the last one is under 50 ms old. |
| DcControls.RatesAreTold | shared/receiver/codec/dc_video_depacketizer.cpp:40-174 | Over every run each indication is followed at once by the rate told before cut to 85% but not under 2 Mbit/s, every other message is a raise by 300 kbit/s up to 8 Mbit/s, starting from 3 Mbit/s, and the rate held is the one told last. |
| DcControls.RaisesWhenDue | shared/receiver/codec/dc_video_depacketizer.cpp:168-174 | Over every run an event raises at most once, only when it delivers 2 s or more after the last change, and then does unless a keyframe is awaited or an indication was sent. |
| DcInvariants.ProcessKeeps | shared/receiver/codec/dc_video_depacketizer.cpp:59-95 | One packet keeps bounds and accounting; a well-formed one leaves no frame 60 ms old, nothing deliverable, nothing behind the expected number, and the nearest frame under 10 ms old. |
| DcInvariants.TickKeeps | shared/receiver/codec/dc_video_depacketizer.cpp:53-58 | The same for a tick. |
| DcInvariants.DrainSettles | shared/receiver/codec/dc_video_depacketizer.cpp:129-175 | Draining alone establishes that settled condition from any state. |
| DcInvariants.FirstIsEarliest | shared/receiver/codec/dc_video_depacketizer.cpp:136-143 | The frame a period starts at is the complete keyframe-flagged frame that arrived first, lowest number on a tie; none only if there is no such frame. |
| DcInvariants.NearestIs | shared/receiver/codec/dc_video_depacketizer.cpp:156-160 | The frame jumped to is the one closest ahead of the expected number, and none is chosen only if nothing is ahead. |
| DcReceiver.DcVideoDepacketizer.ProcessPacketAt | shared/receiver/codec/dc_video_depacketizer.cpp:59-95 | Whole new state and all callbacks of one packet: header checks, drain, stale, overflow, conflicting and duplicate chunks. |
| DcReceiver.DcVideoDepacketizer.OnTimerTickAt | shared/receiver/codec/dc_video_depacketizer.cpp:53-58 | Whole new state and callbacks of one tick. |
| DcReceiver.DcVideoDepacketizer.Drain | shared/receiver/codec/dc_video_depacketizer.cpp:129-175 | Expiry, choice of the first frame, delivery in order, trimming and the bitrate ramp. |
| DcReceiver.DcVideoDepacketizer.AdvanceFrames | shared/receiver/codec/dc_video_depacketizer.cpp:144-164 | The delivery loop; it ends because the pending set shrinks, or stays and the expected frame becomes present. |
| DcReceiver.DcVideoDepacketizer.ConsumeExpected | shared/receiver/codec/dc_video_depacketizer.cpp:147-151 | A complete expected frame is assembled, delivered or recovered from, and erased. |
| DcReceiver.DcVideoDepacketizer.ExpireFrames | shared/receiver/codec/dc_video_depacketizer.cpp:130-135 | Frames 60 ms old go; recovery only for those still needed. |
| DcReceiver.DcVideoDepacketizer.ChooseFirst | shared/receiver/codec/dc_video_depacketizer.cpp:136-143 | Sets the expected number to the chosen first frame. |
| DcReceiver.DcVideoDepacketizer.FindNearest | shared/receiver/codec/dc_video_depacketizer.cpp:156-160 | Search over the map for the nearest frame ahead. |
| DcReceiver.DcVideoDepacketizer.TrimStale | shared/receiver/codec/dc_video_depacketizer.cpp:165-167 | Frames behind the expected number go. |
| DcReceiver.DcVideoDepacketizer.RaiseBitrate | shared/receiver/codec/dc_video_depacketizer.cpp:168-174 | At most one raise of 300 kbit/s in 2 s, while video flows. |
| DcReceiver.DcVideoDepacketizer.Assemble | shared/receiver/codec/dc_video_depacketizer.cpp:96-128 | The unit a decoder can use, or none: parameter sets remembered as a pair, IDR gating, delimiter and parameter sets in front. |
| DcReceiver.DcVideoDepacketizer.Inspect | shared/receiver/codec/dc_video_depacketizer.cpp:102-110 | IDR present, and the last SPS and PPS of the unit. |
| DcReceiver.DcVideoDepacketizer.PrintAccessUnit | shared/receiver/codec/dc_video_depacketizer.cpp:119-125 | The delivered bytes as the Annex-B printing of the chosen units. |
| DcReceiver.DcVideoDepacketizer.StoreChunk | shared/receiver/codec/dc_video_depacketizer.cpp:78-89 | A chunk stored once; a conflicting one erases the frame. |
| DcReceiver.DcVideoDepacketizer.Recover | shared/receiver/codec/dc_video_depacketizer.cpp:40-48 | Waits for a keyframe and, at most every 50 ms, lowers the bitrate and asks for one. |
| DcReceiver.DcVideoDepacketizer.Erase | shared/receiver/codec/dc_video_depacketizer.cpp:39 | A frame leaves and its bytes are no longer counted. |
| DcReceiver.DcVideoDepacketizer.Reset | shared/receiver/codec/dc_video_depacketizer.cpp:19-23 | The initial state in a new period. |
| DcPacketizer.SendAccessUnit | cloud/web/src/dc_packetizer.ts:6-24 | Each of the four results exactly on its condition, with fractions, infinities and unsafe integers refused; what was sent is all packets, or the prefix before the failed send. |
| DcPacketizer.PacketParses | cloud/web/src/dc_packetizer.ts:14-20 | The receiver reads each packet as its flag, index, count, truncated number and time, and its part of the unit. |
| DcPacketizer.ReadsTheFormat | shared/receiver/codec/dc_video_depacketizer.cpp:59-63 | The receiver reads exactly the packets of the wire format: magic, type, index below count, the two flags that mark a first and a last chunk, and a payload of 1 to 1180 bytes. |
| DcPacketizer.PartsAreTheUnit | cloud/web/src/dc_packetizer.ts:11-13 | The parts in order are the unit. |
| DcReassembly.AnyOrderReassembles | shared/receiver/codec/dc_video_depacketizer.cpp:59-175 | Chunks of one unit in any order with any duplicates, in time: nothing is delivered before the last one is there, then exactly the assembly of the whole, once. |
| DcReassembly.CompleteIffCovered | shared/receiver/codec/dc_video_depacketizer.cpp:85-139 | A frame counts as complete exactly when every chunk was seen. |
| DcEndToEnd.UnitDelivered | cloud/web/src/dc_packetizer.ts:6-24 | What the sender emits for a unit, in any order with duplicates, is delivered exactly once as delimiter, parameter sets if an IDR is in it (its own, else the stored ones), and the other units in order; the receiver then awaits the successor and knows the sets the unit left. |
| DcEndToEnd.KeyframeDelivered | shared/receiver/codec/dc_video_depacketizer.cpp:59-175 | The same for a keyframe of up to 300900 bytes into a freshly reset receiver within 60 ms. |
| DcStream.StreamDelivered | shared/receiver/codec/dc_video_depacketizer.cpp:59-175 | Over any interleaving of the packets of many units in flight with duplicates and timer ticks, from a running or a waiting receiver: the outputs are at every moment exactly those of the units before the first incomplete one, in the order sent. Asked of the network at each event: the packet is within 2^15 of that unit; at most 32 units and 2 MiB in flight; none of them first heard of 60 ms ago and the earliest of them under 10 ms ago; and before the first unit no later keyframe completes. |
| DcStream.AllDelivered | shared/receiver/codec/dc_video_depacketizer.cpp:59-175 | When every packet of such a run has come, every unit has come out, once and in the order sent. |
| DcStream.EventMoves | shared/receiver/codec/dc_video_depacketizer.cpp:59-175 | One packet or tick of such a run: the pending map stays exactly what was heard of the units not yet out, under their 16-bit numbers, and just the outputs of the units now completed in order are emitted. |
| DcStream.CrossingDelivered | shared/receiver/codec/dc_video_depacketizer.cpp:144-164 | Such a run in which a unit overtakes its predecessor: it is held back over a tick, and both come out in order. |
| DcRecovery.KeyframeRecovers | shared/receiver/codec/dc_video_depacketizer.cpp:129-175 | After any loss, from any state: if the way to a complete keyframe with its own parameter sets is free, the next drain delivers it, and right after that frame no keyframe is awaited. Free: every frame not expired from the expected number (or from the first keyframe, if none is expected) up to it is 10 ms old, or is complete right behind the expected number or another frame. |
| DcRecovery.WaitedIsFree | shared/receiver/codec/dc_video_depacketizer.cpp:144-164 | In particular the way is free once every frame up to the keyframe that has not expired is 10 ms old. |
| DcRecovery.TakenExactly | shared/receiver/codec/dc_video_depacketizer.cpp:144-164 | The delivery loop takes a complete frame ahead if and only if the way to it is free. |
| DcRecovery.TickRecovers | shared/receiver/codec/dc_video_depacketizer.cpp:53-58 | So the next timer tick delivers such a keyframe. |
| DcEndToEnd.DeliveredSize | shared/receiver/codec/dc_video_depacketizer.cpp:119-125 | The delivered bytes stay within the access-unit cap and every unit in them survives a byte stream. |
| DcEndToEnd.DeliveredReadsBack | shared/receiver/codec/dc_video_depacketizer.cpp:119-125 | They split back into exactly the delivered units if and only if the delimiter, the parameter sets before an IDR and the kept units of the input are at most 1024. |
| DcEndToEnd.FullListDoesNotReadBack | shared/receiver/codec/dc_video_depacketizer.cpp:119-125 | A unit of 1024 slices, which the sender and the receiver accept, comes out as 1025 units that no reader of these limits takes. |
| RtpPacketization.PackagingDoesNotMatter | shared/receiver/codec/h264_rtp_depacketizer.cpp:53-116 | Two ways of packing the same units into single NAL, STAP-A and FU-A packets (RFC 6184 sections 5.6, 5.7.1 and 5.8), of possibly different length, deliver the same bytes and leave the same SPS and PPS. |
| RtpPacketization.AnyPackagingDelivers | shared/receiver/codec/h264_rtp_depacketizer.cpp:53-116 | Any packing of a unit that fits, in consecutive packets with one time and the marker last, acts as appending its units one by one and emitting. |
| RtpPacketization.MixTakes | shared/receiver/codec/h264_rtp_depacketizer.cpp:76-115 | Any mix of payloads is taken as the list of its units. |
| RtpPacketization.AcceptedAggregateFits | shared/receiver/codec/h264_rtp_depacketizer.cpp:82-93 | Once an aggregate passes the size test none of its units is refused. |
| RtpPacketization.AppendedThenEmitted | shared/receiver/codec/h264_rtp_depacketizer.cpp:35-52 | A whole access unit, IDR or not: exactly when it holds a picture, an IDR if one is awaited, with both parameter sets known for an IDR, and fits, it comes out as the printing of the missing parameter sets and its units, and no keyframe is awaited; otherwise nothing, and a request when a keyframe is awaited or a picture lost. |
| RtpChain.StepChain | shared/receiver/codec/h264_rtp_depacketizer.cpp:20-116 | Every packet keeps the invariant that the buffer is whole valid units, and what it delivers is an IDR with both parameter sets or follows the delivery before with the packet sequence unbroken and no loss between. |
| RtpRecovery.LossAsks | shared/receiver/codec/h264_rtp_depacketizer.cpp:20-75 | In every state a packet that cannot be read, the first one behind a gap, and one whose payload is refused each ask for a keyframe, which is then awaited. |
| RtpRecovery.PacketLeaves | shared/receiver/codec/h264_rtp_depacketizer.cpp:53-75 | In every state a packet taken leaves its number, time and source recorded, and one with the marker leaves the access unit over, damaged or not, unless only its own first byte is malformed. |
| RtpRecovery.NextStarts | shared/receiver/codec/h264_rtp_depacketizer.cpp:63-71 | So the next access unit in sequence starts undamaged with nothing collected, behind a marker or at another time. |
| RtpRecovery.IdrDelivered | shared/receiver/codec/h264_rtp_depacketizer.cpp:53-116 | Recovery: from any state, whatever was lost or damaged before, a whole IDR with its sets that follows in sequence, in any packing, is delivered as sent and no keyframe is awaited. |
| RtpRecovery.IdrAfterAnyPacket | shared/receiver/codec/h264_rtp_depacketizer.cpp:53-116 | In particular right behind any packet, the first one after a gap included: the next access unit at another time, or at any time if that packet ended one. |
| RtpWire.ParseAfterPrint | shared/km/rtp_wire.h:23-42 | With any contributing sources, header extension and padding around it (RFC 3550 sections 5.1 and 5.3.1) a packet reads back as it was sent, exactly when it has a payload and at most 65535 bytes. |
| RtpWire.AcceptedIsPrinted | shared/km/rtp_wire.h:23-42 | Nothing else is accepted: every packet read is the printing of its fields in some such wrapping. |
| RtpReceiver.H264RtpDepacketizer.ProcessRtpPacket | shared/receiver/codec/h264_rtp_depacketizer.cpp:53-116 | Whole new state and callbacks of one packet: source change, stale, gap, unit boundary, payload and marker. |
| RtpReceiver.H264RtpDepacketizer.TakePayload | shared/receiver/codec/h264_rtp_depacketizer.cpp:76-114 | Dispatch over the payload types. |
| RtpReceiver.H264RtpDepacketizer.TakeStap | shared/receiver/codec/h264_rtp_depacketizer.cpp:82-93 | An aggregate is appended whole or not at all before its first refusal. |
| RtpReceiver.H264RtpDepacketizer.ReadStap | shared/receiver/codec/h264_rtp_depacketizer.cpp:83-91 | The units of an aggregate, or none if any length or unit is bad. |
| RtpReceiver.H264RtpDepacketizer.TakeFragment | shared/receiver/codec/h264_rtp_depacketizer.cpp:94-112 | Start, continuation and end of a fragmented unit. |
| RtpReceiver.H264RtpDepacketizer.AppendNalu | shared/receiver/codec/h264_rtp_depacketizer.cpp:24-34 | A valid unit that fits is appended, its parameter sets remembered; a new SPS forgets the PPS. |
| RtpReceiver.H264RtpDepacketizer.Emit | shared/receiver/codec/h264_rtp_depacketizer.cpp:35-52 | The access unit goes out, parameter sets in front where missing, only if a decoder can use it. |
| RtpReceiver.H264RtpDepacketizer.Lose | shared/receiver/codec/h264_rtp_depacketizer.cpp:20-23 | The unit is damaged and a keyframe is asked for. |
| RtpReceiver.H264RtpDepacketizer.Reset | shared/receiver/codec/h264_rtp_depacketizer.cpp:16-19 | The initial state. |
| AnnexBLaws.SplitReadsTheLanguage | shared/km/h264.h:11-42 | The splitter returns a list exactly on the Annex-B byte streams (ITU-T H.264) of 1 to 1024 valid, start-code free units that end in a nonzero byte, within 4 MiB. |
| AnnexBLaws.PrintThenSplit | shared/km/h264.h:22-61 | Splitting the printing of any such list returns it. |
| AnnexBLaws.SplitIsClean | shared/km/h264.h:22-42 | Every list returned meets those conditions. |
| AnnexBLaws.SplitLengthsReadsThePrinter | shared/km/h264.h:43-58 | The length-prefixed reader accepts exactly what its printer writes, within the caps. |
| AnnexBLaws.ConversionKeepsUnits | shared/km/h264.h:62-72 | Conversion keeps the list exactly when the converted form fits the cap. |
| AnnexBLaws.ConversionCanOutgrowTheCap | shared/km/h264.h:62-72 | A full-size unit behind a three-byte start code does not survive conversion. |
| AnnexBLaws.CarriedIsConfigured | shared/km/bounded_video_queue.h:19-24 | Bytes printed from units with SPS, PPS and IDR show these three to whoever splits them, whatever start codes the units hide: configured exactly when they split at all. |
| AnnexBLaws.ConfiguredExactly | shared/km/bounded_video_queue.h:19-24 | Of clean printed units the bytes pass for configured exactly when types 5, 7 and 8 are all among them. |
| AnnexB.SplitAnnexB | shared/km/h264.h:22-42 | The scanning loops compute the split. |
| AnnexB.SplitLengthPrefixed4 | shared/km/h264.h:43-58 | The loop computes the length-prefixed split. |
| AnnexB.AppendAnnexB | shared/km/h264.h:59-61 | The printing grows by the unit behind a four-byte start code. |
| AnnexB.AnnexBToLengthPrefixed4 | shared/km/h264.h:62-72 | The printed lengths and units, or nothing if the input does not split. |
| TwccFeedback.BuiltPacketReads | shared/receiver/rtc/twcc_receiver.cpp:126-337 | A reader written from section 3.1 of draft-holmer-rmcat-transport-wide-cc-extensions-01 accepts every built packet, its length field included, and finds the sources, base, reference time, count and for each number its status and delta. |
| TwccCoverage.BatchReported | shared/receiver/rtc/twcc_receiver.cpp:98-337 | Arrivals in any order spanning at most 512 numbers, wraps included: one build reports exactly the recorded set from the oldest number on, and nothing stays owed. |
| TwccCoverage.SessionReported | shared/receiver/rtc/twcc_receiver.cpp:98-337 | Over a whole session of such batches packet i carries counter i and reports exactly batch i. |
| TwccCoverage.BlockReported | shared/receiver/rtc/twcc_receiver.cpp:126-337 | For spans up to the ring: a build reports exactly the next 512 numbers and owes exactly the rest, or changes nothing when none of them was heard. |
| TwccCoverage.DrainsExactlyWithoutSilence | shared/receiver/rtc/twcc_receiver.cpp:204-206 | With no arrivals between, builds report everything if and only if every block of 512 numbers of the span holds a reception. |
| TwccCoverage.BuildsSpeakUntilSilence | shared/receiver/rtc/twcc_receiver.cpp:204-206 | With no arrivals between, the n-th build says something if and only if n is below the number of blocks before the first silent one; later builds say nothing. |
| TwccCoverage.GapStalls | shared/receiver/rtc/twcc_receiver.cpp:204-206 | Two receptions 1100 numbers apart are not reported in full by any number of builds with no arrival between. |
| TwccRuns.RunReports | shared/receiver/rtc/twcc_receiver.cpp:98-337 | Over any interleaving of arrivals and builds in which each number is less than 2048 from the oldest and newest owed: every build speaks exactly if one of the next 512 owed numbers was recorded, and then each status is whether that number was recorded and not reported since. |
| TwccRuns.OwedExactly | shared/receiver/rtc/twcc_receiver.cpp:98-337 | What is owed in such a run is exactly the numbers that came and that no build has reported since: nothing is lost or reported twice. |
| TwccRuns.ArrivalReported | shared/receiver/rtc/twcc_receiver.cpp:98-202 | The next feedback after any arrival within 2^15, in the window or not: a number is said to be received when it was recorded, or when another recorded number shares its slot. |
| TwccTruth.StatusesAreMarks | shared/receiver/rtc/twcc_receiver.cpp:98-337 | Over any run of packets and builds from an empty ring, with no bound on the numbers: each status of a feedback packet is whether a packet of its slot came since anything of the slot was last reported. |
| TwccTruth.TrueExactly | shared/receiver/rtc/twcc_receiver.cpp:98-337 | The statuses of the feedback built after any such run are all true of their 16-bit numbers if and only if of none of these numbers (a) another number of its slot, ahead or behind, came since the slot was reported while it did not come itself, or (b) it came, but its slot was since reported for another number and nothing of the slot came after that. |
| TwccTruth.RunIsTrueExactly | shared/receiver/rtc/twcc_receiver.cpp:98-337 | The same of every packet built in a run. |
| TwccTruth.WindowRunIsTrue | shared/receiver/rtc/twcc_receiver.cpp:98-337 | While every number is less than 2048 from the oldest and newest owed, that never happens: every packet of the run is true. |
| TwccTruth.LaterFalseReception | shared/receiver/rtc/twcc_receiver.cpp:98-337 | An input where the next feedback is true and the one after it false. |
| TwccRuns.InWindowIsTrue | shared/receiver/rtc/twcc_receiver.cpp:98-124 | For an arrival within the window the next feedback is true. |
| TwccRuns.FarAheadIsTrue | shared/receiver/rtc/twcc_receiver.cpp:98-124 | For an arrival 2048 or more ahead of the oldest owed number the next feedback is true if and only if its slot is not that of a number of the block that never came. |
| TwccRuns.ArrivalIsTrue | shared/receiver/rtc/twcc_receiver.cpp:98-124 | After any one arrival, ahead of the window, in it or behind it, the next feedback is true if and only if no number of the block that did not come shares its slot with one that did. |
| TwccRuns.FarBehindIsTrue | shared/receiver/rtc/twcc_receiver.cpp:98-124 | For an arrival behind the oldest owed number the next feedback is true if and only if no recorded number 2048 or more ahead of it has the slot of another number of the block. |
| TwccRuns.FalseReception | shared/receiver/rtc/twcc_receiver.cpp:98-337 | An input where they are false: after a gap, a number that never came is reported as received because the one 2048 ahead of it has. |
| TwccRuns.StallLasts | shared/receiver/rtc/twcc_receiver.cpp:98-206 | From a state whose next 512 slots are empty, over any run of packets and builds: something is reported if and only if a build comes after a packet whose number falls into a slot of that block or before it; without one the receiver stays stalled at the same block. |
| TwccRuns.SilentIsStalled | shared/receiver/rtc/twcc_receiver.cpp:204-206 | Such a state is what a silent block leads to. |
| TwccCoverage.RunTracks | shared/receiver/rtc/twcc_receiver.cpp:98-124 | Recording from a clean state in any order: the pending range is the oldest to the newest number and the ring holds exactly the last arrival of each. |
| TwccTiming.ReconstructionWithin | shared/receiver/rtc/twcc_receiver.cpp:154-202 | The arrival a sender reconstructs for the k-th reception differs from the recorded one by less than 250 k microseconds, wraps of the 24-bit reference put back, when no delta is cut to 16 bits. |
| TwccTiming.DeltaIsNearest | shared/receiver/rtc/twcc_receiver.cpp:154-202 | The delta reported for a reception is the nearest 16 bits can come to the true one, in one byte exactly when that is 0 to 255 ticks. |
| TwccTiming.DriftAccumulates | shared/receiver/rtc/twcc_receiver.cpp:189-191 | The error does grow with k: packets 249 microseconds apart all read as simultaneous. |
| TwccReceive.TwccReceiver.OnPacket | shared/receiver/rtc/twcc_receiver.cpp:98-124 | The slot written and the pending range widened by signed distance. |
| TwccReceive.TwccReceiver.BuildFeedbackPacket | shared/receiver/rtc/twcc_receiver.cpp:126-337 | The packet and the whole state after it, or nothing and no change. |
| TwccReceive.TwccReceiver.ReadStatuses | shared/receiver/rtc/twcc_receiver.cpp:154-202 | The status loop computes statuses and reference time. |
| TwccReceive.TwccReceiver.Encode | shared/receiver/rtc/twcc_receiver.cpp:209-264 | The greedy chunk loop computes run-length and vector chunks and the deltas. |
| TwccReceive.TwccReceiver.Forget | shared/receiver/rtc/twcc_receiver.cpp:328-332 | The reported slots are empty, the others as before. |
| TwccReceive.TwccReceiver.Reset | shared/receiver/rtc/twcc_receiver.cpp:20-29 | The initial state. |
| RtcpLaws.RingIsTheSet | shared/receiver/rtc/enhanced_rtcp_session.cpp:31-70 | Over every run the 2048-entry ring accepts and counts exactly as an unbounded set of extended numbers, none twice; interval counts of successive reports are never negative and add up to the totals. |
| RtcpLaws.CountsWhatWasHeard | shared/receiver/rtc/enhanced_rtcp_session.cpp:36-53 | In the sender's own numbering: expected is the newest minus the first plus one, received the number of distinct packets heard less than 2048 behind the newest, lost the difference. |
| RtcpLaws.NeverOvercounts | shared/receiver/rtc/enhanced_rtcp_session.cpp:54-58 | Received is the size of a set within base and highest, so expected is never below it. |
| RtcpLaws.RingAnswers | shared/receiver/rtc/enhanced_rtcp_session.cpp:43-44 | The slot test answers exactly whether the number was accepted before. |
| RtcpReport.ReportReads | shared/receiver/rtc/enhanced_rtcp_session.cpp:54-70 | A reader of RFC 3550 section 6.4.2 finds in the report after any run the capped loss over distinct packets, the highest number, fraction and delay. |
| RtcpReport.FractionIs | shared/receiver/rtc/enhanced_rtcp_session.cpp:57-62 | The fraction is the interval's loss rounded down to 256ths, 255 for all of it, 0 when more came than was expected. |
| RtcpReport.DelayIs | shared/receiver/rtc/enhanced_rtcp_session.cpp:68-69 | The delay since the last sender report is its age rounded down to 65536ths of a second, 2^32 - 1 for more, 0 without such a report. |
| RtcpJitter.JitterWithinSpread | shared/receiver/rtc/enhanced_rtcp_session.cpp:36-53 | Over any run, with loss, reordering, repeats and timestamp wraps, the jitter is never negative nor above the spread of the packets' lateness; a stream that is always equally late has none. |
| RtcpJitter.JitterIs | shared/receiver/rtc/enhanced_rtcp_session.cpp:45-53 | Over any run the jitter is exactly a sixteenth of each change in lateness between packets counted one after another, faded by 15/16 for every later one. |
| RtcpJitter.SteadyRun | shared/receiver/rtc/enhanced_rtcp_session.cpp:49 | So when the lateness always changes by d, n + 1 counted packets give d (1 - (15/16)^n). |
| RtcpJitter.JitterReported | shared/receiver/rtc/enhanced_rtcp_session.cpp:66 | The reported field is the whole part of the jitter of any run, or 2^32 - 1 above that. |
| RtcpSession.EnhancedRtcpReceivingSession.Record | shared/receiver/rtc/enhanced_rtcp_session.cpp:36-53 | Whole new counters, ring, last timestamp and arrival, and jitter after one packet. |
| RtcpSession.EnhancedRtcpReceivingSession.Report | shared/receiver/rtc/enhanced_rtcp_session.cpp:54-70 | The report bytes with the jitter cut to 32 bits, and the interval marks moved. |
| RtcpSession.EnhancedRtcpReceivingSession.ResetSource | shared/receiver/rtc/enhanced_rtcp_session.cpp:31-35 | Fresh counters, ring, jitter and feedback receiver for a new source. |
| JsonStrings.QuoteReadsBack | shared/km/json.h:155-164 | Parsing the quoted form of any valid UTF-8 string returns it exactly when the quoted form fits 1 MiB; anything else is not quoted. |
| JsonDocuments.DocumentReadsBack | shared/km/json.h:71-153 | Any document with valid strings, each character spelled plainly or by any escape, any valid numbers, and any RFC 8259 white space between its tokens parses to its own value if it is at most 1 MiB, 16384 values and 32 levels and repeats no key, and is refused otherwise. |
| JsonDocuments.ReadsTheLanguage | shared/km/json.h:71-153 | Conversely a text is read exactly if it is one of these documents within the limits, and as what that document means. |
| JsonSpellings.SpelledReads | shared/km/json.h:91-118 | Every list of spellings of RFC 8259 section 7 - a plain byte, one of the eight short escapes of its table, a four-digit escape in either case, a surrogate pair - reads as the UTF-8 of what they stand for. |
| JsonSpellings.StringReadsAsSpelled | shared/km/json.h:71-118 | A string document in any spelling parses to what it stands for, within the size limit and if it is valid UTF-8. |
| JsonSpellings.OnlySpellings | shared/km/json.h:91-118 | Whatever reads as a string is written in these spellings and reads as what they stand for. |
| JsonStrings.ParsedIsSound | shared/km/json.h:71-153 | Every parsed document is nested at most 32 deep, all its strings and keys are valid UTF-8 with escapes and surrogate pairs decoded, and all its numbers follow RFC 8259 section 6. |
| Utf8.ValidExactlyEncodings | shared/km/json.h:40-67 | The strings accepted are exactly the encodings of lists of Unicode scalar values (RFC 3629). |
| Utf8.ValidUtf8 | shared/km/json.h:50-67 | The decoding loop accepts exactly the language of RFC 3629 section 4. |
| Utf8.EncodeIsValid | shared/km/json.h:40-49 | The encoding of every scalar value is in that language. |
| Utf8.CharacterIs | shared/km/json.h:54-64 | A complete character is in the language exactly when its value is a scalar not written too long, and then encoding gives its bytes back. |
| Utf8.AppendUtf8 | shared/km/json.h:40-49 | The encoding of a code point at the end. |
| JsonReading.Reader.Read | shared/km/json.h:71-74 | A whole document or failure. |
| JsonReading.Reader.Value | shared/km/json.h:120-151 | A value with position and node count moved past it, or failure. |
| JsonReading.Reader.Members | shared/km/json.h:126-134 | The member loop, duplicates refused. |
| JsonReading.Reader.Elements | shared/km/json.h:136-138 | The element loop. |
| JsonReading.Reader.String | shared/km/json.h:91-118 | A string with its escapes. |
| JsonReading.Reader.Unicode | shared/km/json.h:104-112 | One scalar from one escape or a surrogate pair. |
| JsonReading.Reader.Hex | shared/km/json.h:80-90 | Four hexadecimal digits. |
| JsonReading.Reader.Number | shared/km/json.h:143-148 | The text of a number. |
| JsonReading.Quote | shared/km/json.h:155-164 | The quoting loop. |
| QueueLaws.RunKeepsEpochs | shared/km/bounded_video_queue.h:25-51 | Over every run each epoch accepted exactly the nonempty units offered for its generation from the first configured IDR on, pops gave them in order, and the byte count is their sum within 8 frames and 2 MiB. |
| QueueLaws.CurrentExactlyInItsEpoch | shared/km/bounded_video_queue.h:52-54 | A unit is current exactly while the epoch that accepted it lasts. |
| QueueLaws.NeverCurrentAgain | shared/km/bounded_video_queue.h:25-54 | Once not current, never again, whatever follows. |
| QueueLaws.PushEndsEpoch | shared/km/bounded_video_queue.h:36-41 | A push ends the epoch exactly when it is nonempty, for the current generation and over a bound. |
| QueueLaws.PopGivesNext | shared/km/bounded_video_queue.h:47-51 | After any run a pop gives the first unit accepted in this epoch and not yet popped, and nothing only if there is none. |
| QueueLaws.RunNumbers | shared/km/bounded_video_queue.h:25-41 | Over every run the generation is one more than the resets, the serial one more than the epochs ended, and the current epoch began at the last event that ended one. |
| VideoQueue.BoundedVideoQueue.Push | shared/km/bounded_video_queue.h:32-46 | Acceptance and whole new state. |
| VideoQueue.BoundedVideoQueue.Pop | shared/km/bounded_video_queue.h:47-51 | The oldest unit and whole new state. |
| VideoQueue.BoundedVideoQueue.Reset | shared/km/bounded_video_queue.h:25-27 | Empty, a new generation and a new serial. |
| VideoQueue.BoundedVideoQueue.Invalidate | shared/km/bounded_video_queue.h:28-30 | Empty and a new serial. |
| VideoQueue.BoundedVideoQueue.IsConfiguredIdr | shared/km/bounded_video_queue.h:19-24 | The loop over the units finds SPS, PPS and IDR. |
| GateLaws.RunKeeps | shared/km/callback_gate.h:22-41 | Over every interleaving the per-thread counts are the live leases, a closer sleeps only while a lease is alive, and after a returned close none is. |
| GateLaws.NothingAfterClose | shared/km/callback_gate.h:32-41 | Once a close has returned, no lease is live and none is ever granted, whatever the threads do. |
| GateLaws.CloseCanReturn | shared/km/callback_gate.h:22-40 | When the last lease dies every waiting closer has been notified and returns as soon as it runs. |
| GateLaws.CloseIs | shared/km/callback_gate.h:37-41 | A close inside a lease throws and changes nothing; otherwise the gate shuts, returning at once exactly when no lease is alive. |
| GateLaws.ShutStaysShut | shared/km/callback_gate.h:32-36 | A shut gate grants nothing and its live leases only become fewer. |
| GateLaws.GrantsExactly | shared/km/callback_gate.h:22-41 | Over every interleaving the leases granted and alive are exactly those of a gate without counts that grants every entry until a thread without a lease closes it. |
| GateLaws.WaitsUntilNone | shared/km/callback_gate.h:37-41 | A waiting close goes on waiting, asleep or notified, until its own turn finds no lease alive. |
| CallbackGating.CallbackGate.Enter | shared/km/callback_gate.h:32-36 | The thread's count raised if open. |
| CallbackGating.CallbackGate.Leave | shared/km/callback_gate.h:22-28 | The count lowered, the entry erased at zero, and every sleeping closer notified. |
| CallbackGating.CallbackGate.BeginClose | shared/km/callback_gate.h:37-41 | Throws and changes nothing, returns, or goes to sleep. |
| CallbackGating.CallbackGate.Recheck | shared/km/callback_gate.h:40 | A woken closer returns if no lease is alive and otherwise sleeps again. |
| PcmLaws.RunAccounted | macos/receiver/audio_pcm_queue.h:40-95 | Over all runs of push, pop and clear: depth is pushed less dropped less popped, the queue is the newest part of everything offered, pops give stretches of it in order and never the same twice. |
| PcmLaws.KeptIsNewest | macos/receiver/audio_pcm_queue.h:45-61 | A push keeps the newest of old and new, within capacity and high water. |
| PcmLaws.OverflowLeavesTarget | macos/receiver/audio_pcm_queue.h:40-64 | After any run, a push that fits both bounds keeps everything; one that does not leaves the newest target elements of the whole stream, or as many as the capacity if that is no more than the high water mark, and counts the rest as dropped. |
| PcmLaws.RunCounts | macos/receiver/audio_pcm_queue.h:40-95 | Over every run each pop gave as much as its room could take of what was left; popped is what the pops gave in all, underruns how often one with room found nothing, the highest depth the largest after any event. |
| PcmQueue.AudioPcmQueue.Push | macos/receiver/audio_pcm_queue.h:40-64 | The ring refines the sequence: newest capacity elements, then above high water the newest target elements; counters too. |
| PcmQueue.AudioPcmQueue.Fit | macos/receiver/audio_pcm_queue.h:45-57 | Capacity first: front drops and skipped input leave the newest that fits. |
| PcmQueue.AudioPcmQueue.Pop | macos/receiver/audio_pcm_queue.h:72-86 | The oldest elements in order, copied in at most two pieces; an empty pop is an underrun. |
| PcmQueue.AudioPcmQueue.Append | macos/receiver/audio_pcm_queue.h:123-128 | The two copies append to the sequence. |
| PcmQueue.AudioPcmQueue.DropFront | macos/receiver/audio_pcm_queue.h:117-122 | The front of the sequence goes. |
| PcmQueue.AudioPcmQueue.Clear | macos/receiver/audio_pcm_queue.h:90-95 | Everything queued is counted as dropped. |
| SignalingLaws.RunEnds | shared/receiver/signaling/signaling_worker.cpp:57-126 | Whatever clock, server, answerer and canceller do, a run ends after at most ceil(timeout / initial interval) polls, two offers answered in a row differ, and the phases are a word of one regular language. |
| SignalingLaws.OneTerminalPhase | shared/receiver/signaling/signaling_worker.cpp:57-117 | Without polling after an answer a run shows exactly one terminal phase, its last. |
| SignalingAnswers.RunTells | shared/receiver/signaling/signaling_worker.cpp:57-117 | For every script: the offers answered and the phases shown are exactly those the polls call for, a new offer being answered unless cancelled or failed and a repeated one passed over; polls come one rest and the time of the steps between them apart, the rest growing by 500 ms after every poll later than the backoff time up to the largest; and the run ends only by a poll that stops it, a cancellation, or its timeout, reported exactly if nothing was answered. |
| SignalingAnswers.NewOfferIsAnswered | shared/receiver/signaling/signaling_worker.cpp:91-108 | For every script and poll: a new offer that is not cancelled by the end of the poll, answered with something and accepted by the server, is appended to the offers answered, and the phases of generating, sending and success follow. |
| SignalingAnswers.WillingRunAnswers | shared/receiver/signaling/signaling_worker.cpp:76-115 | Where nothing fails and polling goes on, the offers answered are exactly those yielded with adjacent repeats left out, and a timeout is reported exactly if every offer yielded was empty. |
| SignalingAnswers.WillingRunAnswersOnce | shared/receiver/signaling/signaling_worker.cpp:76-110 | Where nothing fails and polling stops with an answer, the first offer that is not empty is answered by the last poll; without one the run times out. |
| SignalingAnswers.SleepLasts | shared/receiver/signaling/signaling_worker.cpp:113-114 | A sleep takes exactly its interval rounded up to slices of 20 ms and what its steps take, unless cancelled. |
| SignalingModel.IntervalStays | shared/receiver/signaling/signaling_worker.cpp:111-112 | The interval stays between its initial and maximal value. |
| SignalingModel.SleepTakes | shared/receiver/signaling/signaling_worker.cpp:113-114 | Sleeping takes at least the interval unless cancelled. |
| SignalingModel.LeftFalls | shared/receiver/signaling/signaling_worker.cpp:76-115 | Each round leaves less time, or has been cancelled: the loop's measure. |
| SignalingWork.SignalingWorker.RunOnce | shared/receiver/signaling/signaling_worker.cpp:57-72 | The whole run as executed: phases, polls and answers. |
| SignalingWork.SignalingWorker.OneRound | shared/receiver/signaling/signaling_worker.cpp:76-115 | One turn of the loop ends the run or leaves less time. |
| SignalingWork.SignalingWorker.AnswerOffer | shared/receiver/signaling/signaling_worker.cpp:91-108 | From a new offer to its accepted answer. |
| SignalingWork.SignalingWorker.SleepFor | shared/receiver/signaling/signaling_worker.cpp:113-114 | Slices of 20 ms, cancellation looked at before each. |
| Nv12.Letterbox | shared/km/nv12.h:36-63 | Succeeds exactly on valid views, quarter turns and a rectangle of at least 2 by 2; then in each plane every sample of the rectangle is the rotated nearest source sample, every other visible byte black, and padding unchanged; else nothing changes. |
| Nv12Laws.RotationRestores | shared/km/nv12.h:36-63 | Into exactly the rotated size by r, then back by 360 - r: every visible byte of luma and chroma is restored, whatever strides and old contents. |
| Nv12Laws.ExactFit | shared/km/nv12.h:39-44 | With a destination of the rotated source's size the rectangle is all of it: nothing is black and nothing scaled. |
| Nv12Model.RectIs | shared/km/nv12.h:39-44 | The rectangle is even, inside the destination, touches two opposite edges and is centred to even offsets. |
| Nv12Laws.FitKeepsAspect | shared/km/nv12.h:39-42 | The rectangle spans the destination one way, and the other way is the largest even size not too long for the picture's aspect ratio. |
| Nv12Laws.FitIsLargest | shared/km/nv12.h:39-42 | No scale at which the rotated picture fits the destination makes either of its sides two or more longer than the rectangle's. |
| Nv12Laws.CellShowsNearest | shared/km/nv12.h:52-60 | At any scale each byte of the rectangle is that of the rotated source sample in whose share of the picture its cell starts. |
| Nv12Laws.EnlargedShows | shared/km/nv12.h:53 | Enlarged m times, each sample is shown in m columns or rows. |
| Nv12Laws.TurnsClockwise | shared/km/nv12.h:54-57 | The rotation is clockwise: the sample shown is the one that as many clockwise quarter turns bring there. |
| Nv12Laws.BorderIsBlack | shared/km/nv12.h:28-61 | Outside the rectangle luma is 16, chroma 128, and padding is as before. |
| Nv12Model.PlaneFitsIs | shared/km/nv12.h:18-21 | The check is exactly that the last byte of the last row lies in the plane. |
| Nv12.SourceInPlane | shared/km/nv12.h:52-60 | Every source access lies in its plane. |
| Nv12Model.VisibleInPlane | shared/km/nv12.h:18-21 | Every visible byte of a plane that fits lies in it. |
| Nv12.FillBlack | shared/km/nv12.h:28-33 | Visible bytes to 16 and 128, padding unchanged, nothing on an invalid view. |
| Nv12.CopyPlane | shared/km/nv12.h:46-61 | The nested copying loops paint exactly the rectangle. |
| Timing.RationalPacer.Next | shared/km/timing.h:46-54 | The i-th call returns exactly epoch + floor(i * 10^9 * denominator / numerator), and throws exactly when the following deadline does not fit 64 bits. |
| Timing.RationalPacer.Make | shared/km/timing.h:39-45 | Accepted rates and only those. |
| Timing.UnwrapTracks | shared/km/timing.h:10-22 | Unwrapping the low 32 bits of times less than 2^31 apart gives the times back. |
| Timing.ConversionIsExact | shared/km/timing.h:23-34 | Ticks become microseconds rounded towards zero, and the conversion throws exactly when the result does not fit 64 bits. |
| Timing.TimestampUnwrapper32.Unwrap | shared/km/timing.h:12-17 | New state and value of one call. |

## Left out

- Wrap-around of 64-bit counters, generations, serials and clocks is not modelled; they are unbounded integers. The exceptions are
  RationalPacer and the microsecond conversion, whose 64-bit limits are exact.
- Re-entrant callbacks: handlers are effects returned in order, so a handler that calls back into the component that is running
  (and the generation check by which DcVideoDepacketizer stops a batch in that case) is not modelled; the engine's header forbids it.
- Mutexes: each locked method is one step. Only the callback gate, whose promise is about interleavings, is modelled thread by thread.
- Control messages of the DataChannel are values for a picture-loss indication and a bitrate; their JSON text is not built.
- Statistics counters and logging. The RTCP interarrival jitter is a real number, so its floating-point rounding is not modelled.
- Feedback scheduling, REMB, PLI and FIR packets, sender-report parsing and the RTP header extension that carries the transport-wide
  number in shared/receiver/rtc: short packet printers and timers around the parts modelled.
- DcStream.StreamDelivered: what the network must keep to is part of the statement; what the receiver still guarantees beyond that
  (losses, expiry, overflow) is in DcOrder.RunDelivers and DcInvariants.ProcessKeeps.
- TwccRuns.RunReports: assumes every number within the ring's window, so that the ledger can name numbers by their full value;
  TwccTruth.TrueExactly speaks of all runs, by 16-bit numbers.
- TwccRuns.FarAheadIsTrue: judges the next feedback only; for later ones, and any number of arrivals, see TwccTruth.TrueExactly.
- TwccTiming.ReconstructionWithin: assumes that no delta is cut to 16 bits, since a cut delta loses the time by any amount.
- RtcpJitter.JitterIs: assumes timestamps less than 2^31 ticks apart, without which 32 bits cannot tell their distance.
- RtpPacketization.AnyPackagingDelivers: assumes that the units fit the caps; what happens when one does not is in the step functions
  and their methods only.
- RtcpLaws.CountsWhatWasHeard: assumes each packet is within 2^15 of the newest, without which 16 bits cannot tell its number.
- SignalingWork.SignalingWorker.RunOnce: thread start, join and the HTTP client are not modelled; each request, answer and look at
  the cancellation flag is one step of a script that may be any.
- PcmQueue.AudioPcmQueue.Push: the input is a sequence, and the time a push takes is not measured.
- Nv12.Letterbox: source planes are sequences, so overlapping source and destination, which the code excludes, cannot be said.
- JsonReading.Reader.Value: the value's kind and text are one datatype, and `at`, `find`, `string` and `uint32` of the source's value,
  plain accessors, are not modelled; a failed read abandons the reader instead of throwing.
- CallbackGating.CallbackGate.BeginClose: a method cannot block, so the wait on the condition variable is cut at its two ends,
  BeginClose and Recheck; that the woken thread runs again is the scheduler's part.
- Windows and macOS applications, virtual cameras, Direct3D, Media Foundation and audio devices, the Opus depacketizer (a smaller copy of
  the DataChannel reorder buffer), bandwidth estimation, the cloud service and the browser's user interface.
