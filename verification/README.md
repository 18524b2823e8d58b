# PlanView: the frame pipeline and the runtime engine

PlanView is an HMI configuration tool. This project models the two cores under its user interface and the
pieces that hang on them, and proves what they keep over whole runs.

**The frame pipeline.** Bytes arrive in chunks of any size. `FrameSplitter` cuts them into frames in one of three
ways (tag/length/value, fixed header + length, several headers on one line) and finds its way back after garbage.
`FlowSplitters` runs one splitter per captured TCP flow, behind a parser for Ethernet, VLAN tags, IPv4, TCP and UDP.
`FrameDataSource` decodes every frame and keeps the latest value of each slot, counters, a monitor log and a
forward queue; `PollWorker` forwards the queue to sinks over links that fail. `TestFrameGen` is the encoder and the
simulated device. `FrameSourceSettings` merges the protocols of a group and makes tags and bindings for components.

**The runtime engine.** Tag updates refresh bindings, fire linkage rules in a recursive, depth-capped cascade, and
drive latching alarms.

The code changes objects step by step, so every class of the source is a class here, with its loops; each
method is proved to do what a function on its state does, and the theorems are about those functions and about
whole runs of them. What such a function means is said a second time in words of its own, over all inputs or whole
runs: a frame is told by its length field (`LegalFrames`), a packet, a field and a device cycle by their bytes
(`PacketMeaning`, `FieldMeaning`, `DeviceMeaning`), a slot by the frames before (`SlotMeaning`), a binding by its text
(`BoundFields`), the engine by an agenda (`RuntimeAgenda`) and by the updates that came in (`RuntimeMeaning`).

| file | what it holds |
|---|---|
| `Bytes`, `Framing` | digits and numbers; one decision of the splitter (`Step`) and the loop of decisions (`Drain`) |
| `FrameCodec` | the splitter with its lazily advanced cursor, proved to be erase-after-every-frame |
| `Segmentation`, `Splitting` | more bytes never change a decision; cutting the stream makes no difference; the overflow cap; when the loop ends |
| `MultiHeader` | several headers: exactly when cutting matters, to frames and bytes and to the loop as written |
| `Conservation` | over a run every byte is emitted, skipped, dropped or kept; frames survive garbage; which cuts get the loop stuck |
| `FrameEncoder`, `RoundTrip` | encoder and decoder as inverses; whole streams; which configuration a frame belongs to |
| `LegalFrames` | what a frame is, told by its own bytes: exactly such frames are cut, none is skipped, and they decode |
| `Ethernet`, `PacketMeaning`, `Flows` | captured packets, byte by byte, and the splitters of their flows |
| `Values`, `Fields`, `FieldCodec`, `SimulatedDevice` | field values, and the device that counts through them |
| `FieldMeaning`, `DeviceMeaning` | what the bytes of a field mean, and what the device puts on the line |
| `SlotCache`, `DataSource`, `SlotMeaning` | what a stream of frames means for slots, counters and queues |
| `ProtocolGroup` | group merge and isolation |
| `ImplicitBindings`, `BoundFields` | tags and bindings made for components, and which slot each of them shows |
| `EndToEnd` | from any sender, and from the device, over an arbitrarily cut line to the slots |
| `Forwarding` | sinks, back-off, order and recovery |
| `RuntimeModel`, `Engine` | the engine's rules as functions, and the engine |
| `RuntimeCascade`, `RuntimeUncapped` | work bounds; when the depth cap makes no difference, for one action and for whole runs |
| `RuntimeAgenda` | the same engine as an agenda that is worked off item by item, and that the two agree over every run |
| `RuntimeAlarms`, `RuntimeBindings`, `RuntimeMeaning` | alarm laws; what tags, bindings, curves and alarms show over a run |

## Where the code does not do what it says

The model follows the code. Each deviation has a lemma that says exactly when it shows.

- With several headers, the extraction loop of `FrameSplitter::feed` repeats one decision for ever when the bytes it
  is left with are a proper prefix of a header (src/base/packet/FrameCodec.cpp:200-202): `Splitting.HangsIffPartialHeader`.
  For frames between garbage, `Conservation.ChunkedRecovery` says at which cuts of the stream that happens, and
  `RoundTrip.StreamRoundTrip` that for frames sent back to back it is exactly when a chunk ends inside a header.
  `Feed` reports it as `hung`. The frames and bytes that laws about runs speak of are those the loop would reach if it
  waited there, as it does for one header (line 152); the same laws say exactly when the source does not get there.
- With several headers, how the stream is cut matters unless every header is one byte long: `MultiHeader.CuttingIrrelevantIff`.
  To the frames and bytes alone, as if the loop waited, it matters exactly when one header stands inside another:
  `MultiHeader.ChunkingIrrelevantIff`. `Splitting.SpinsIff` says for every set of headers when one decision repeats itself.
- The splitter rejects a gap between header and length field, while encoder and decoder accept it:
  `RoundTrip.SplitterTakesEncodedIff`.
- The overflow cap drops bytes of some stream exactly when a header or its length field does not fit in it:
  `Splitting.CapNeverDropsIff` for one header, `Splitting.CapNeverDropsGroupIff` for a group of different headers of which
  none stands inside another. In TLV mode it drops nothing (`Splitting.ResidueBound`).
- A negative maxFrameLen is no limit in the decoder: `FrameEncoder.NegativeLimitIsNoLimit`.
- 32-bit signed fields never decode: `FieldCodec.DeviceFieldDecodesIff`.
- Scaled signed fields are scaled as unsigned 64-bit patterns: `FieldCodec.ScaledSignedIff`.
- The renaming loop for implicit tags repeats one suffix: `ImplicitBindings.RenamingEndsIff` for one tag,
  `ImplicitBindings.SynthesisEndsIff` for a whole project, `ImplicitBindings.ThreeNamesakesGetStuck` for the smallest case.
- `acknowledgeAllAlarms` erases from the vector it iterates over; the model iterates over a copy.
  `RuntimeAlarms.AcknowledgeAllErasesNothingIff` says when nothing is erased, so that the source's loop is defined.
- Comments that are out of date: the payload of a header + length frame is not the whole frame
  (src/base/packet/FrameCodec.h:70), and signed counters start at their minimum, not at 0 (src/base/data/frame/TestFrameGen.cpp:197).

## Model

| member | source | states |
|---|---|---|
| Bytes.DigitsRoundTrip | src/base/data/frame/TestFrameGen.cpp:9-12 | n written bytes, in either byte order, are read back as the value modulo 256^n |
| Bytes.DigitsExact | src/base/packet/FrameCodec.cpp:9-16 | a value that fits its bytes is read back unchanged |
| Bytes.WriteUint | src/base/data/frame/TestFrameGen.cpp:9-12 | the shift-and-push loop appends the base-256 digits of the value |
| Bytes.ReadUint | src/base/packet/FrameCodec.cpp:9-16 | the 64-bit accumulate loop yields the number the bytes stand for, exactly up to eight bytes |
| Bytes.UintDigit | src/base/packet/FrameCodec.cpp:9-16 | byte i is the base-256 digit its place says, from the end in one byte order and from the front in the other |
| Framing.ResyncIsLeastCandidate | src/base/packet/FrameCodec.cpp:64-89 | the search for a full header and then for a partial tail ends at the least position that is, or may still become, a header |
| Segmentation.EmitExtends | src/base/packet/FrameCodec.cpp:91-171 | a frame cut off the front is cut off whatever bytes follow |
| Segmentation.SkipExtends | src/base/packet/FrameCodec.cpp:64-89 | a resynchronisation skips at least as far once more bytes have come, and what lies between is no header, also for headers that overlap themselves |
| Segmentation.DrainSplits | src/base/packet/FrameCodec.cpp:44-54 | extracting from a stream in two pieces extracts what one extraction does and leaves the same bytes |
| Splitting.TwoFeeds | src/base/packet/FrameCodec.cpp:44-60 | feeding a and then b emits the same frames and keeps the same bytes as feeding both at once; the joint feed gets stuck if the second does, and the first gets stuck exactly if a leaves the beginning of a header |
| Splitting.RunIsOneDrain | src/base/packet/FrameCodec.cpp:44-60 | a run of any number of feeds extracts what one extraction from the whole stream does; it gets stuck on the way if and only if some chunk ends where the bytes received leave the beginning of a header, and never with one configuration |
| Splitting.SegmentationInvariance | src/base/packet/FrameCodec.cpp:44-171 | two ways of cutting a stream into chunks give the same frames and buffer, in all three modes; which of them gets stuck depends only on the places of the cuts, and with one configuration none does |
| Splitting.UnusableTwoFeeds | src/base/packet/FrameCodec.cpp:121-149 | with unusable parameters nothing is extracted however the stream is cut, and the last bytes are kept |
| Splitting.ResidueBound | src/base/packet/FrameCodec.cpp:121-170 | the undecided rest is below maxFrameLen + 8, or below a header + 4 or maxFrameLen, and within the overflow cap |
| Splitting.KeptAfterFeed | src/base/packet/FrameCodec.cpp:49-59 | a feed keeps the undecided bytes, or the last of them if they are more than twice the largest frame length limit and 1024, also for negative limits |
| Splitting.CapNeverDropsIff | src/base/packet/FrameCodec.cpp:54-59 | for one header the cap never drops a byte of any stream if and only if header and length field fit in it |
| Splitting.CapNeverDropsGroupIff | src/base/packet/FrameCodec.cpp:54-59 | the same for a group of different headers of which none stands inside another, for every one of its configurations |
| Splitting.SingleNeverHangs | src/base/packet/FrameCodec.cpp:121-171 | with one configuration no decision reports progress without moving |
| Splitting.HangsIffPartialHeader | src/base/packet/FrameCodec.cpp:175-203 | with several headers the step repeats itself if and only if the rest is a non-empty proper prefix of a header |
| Splitting.SpinsIff | src/base/packet/FrameCodec.cpp:94-119 | for every set of headers, nested ones included: the step repeats itself if and only if the bytes begin a header, none is complete behind their front, and none matches at the front except with an illegal length |
| MultiHeader.FirstHeaderCutHangs | src/base/packet/FrameCodec.cpp:94-119 | a first chunk that stops inside a header always gets the loop stuck, with nothing extracted |
| MultiHeader.CuttingIrrelevantIff | src/base/packet/FrameCodec.cpp:44-60 | for headers of which none starts another, cutting makes no difference to a run as written, getting stuck included, if and only if every header is a single byte |
| MultiHeader.ChunkingIrrelevantIff | src/base/packet/FrameCodec.cpp:173-203 | for headers of which none starts another, cutting makes no difference to the frames and bytes only, with a loop that would wait instead of getting stuck, if and only if none stands inside another |
| MultiHeader.NestedHeaderMatters | src/base/packet/FrameCodec.cpp:176-185 | two cuts of one header around a header inside it leave different bytes |
| Conservation.EveryByteAccounted | src/base/packet/FrameCodec.cpp:44-60 | over every run of feeds, for every configuration, the stream is tiled by pieces that were emitted, skipped by resynchronisation or dropped by the cap, each by a decision on the bytes then received; the frames are the emitted pieces in order, the buffer is the end of the stream; the source gets through the run if and only if its loop spins on nothing that a chunk leaves undecided |
| Conservation.TiledOnce | src/base/packet/FrameCodec.cpp:44-60 | such pieces give every byte exactly one fate |
| Conservation.OnlyGarbageIsSkipped | src/base/packet/FrameCodec.cpp:64-89 | over every run, at a skipped position no frame could be cut even with all later bytes, and no later byte would have changed an emitted frame |
| Conservation.AllFramesRecovered | src/base/packet/FrameCodec.cpp:143-170 | valid frames between garbage blocks in which no header starts are all extracted, in order, with nothing else |
| Conservation.StuckIffCutsHeader | src/base/packet/FrameCodec.cpp:94-119 | among frames and garbage, the bytes received get the loop stuck if and only if they stop before the next frame's header is complete and end in the beginning of a header |
| Conservation.ChunkedRecovery | src/base/packet/FrameCodec.cpp:44-171 | valid frames between garbage are delivered exactly, over any cutting, and nothing is left over; the loop gets stuck on the way if and only if there are several headers and a chunk ends in such an open header |
| LegalFrames.OnlyFramesAreCut | src/base/packet/FrameCodec.cpp:121-171 | over every run of feeds, for every configuration: each frame that is cut is as long as its own length field announces under a configuration in use, that length is legal, and no earlier configuration has its header in front |
| LegalFrames.FramesAreCut | src/base/packet/FrameCodec.cpp:91-171 | every such frame at the front of the bytes is cut off whole, whatever follows it, for one configuration and for distinguishable headers |
| LegalFrames.NoFrameIsSkipped | src/base/packet/FrameCodec.cpp:62-89 | over every run, at no position that resynchronisation skips does such a frame start in the whole stream |
| LegalFrames.DecodesIff | src/base/packet/FrameCodec.cpp:205-243 | exactly which bytes decode, and to which tag and payload, told by their length field |
| LegalFrames.CutFramesDecode | src/base/packet/FrameCodec.cpp:121-243 | a frame that was cut decodes under its configuration, and its payload reaches to its end |
| FrameCodec.StartsWith | src/base/packet/FrameCodec.cpp:18-24 | true exactly if the non-empty header stands at the position |
| FrameCodec.FrameSplitter.constructor | src/base/packet/FrameCodec.h:35 | an empty splitter with one configuration |
| FrameCodec.FrameSplitter.SetConfig | src/base/packet/FrameCodec.cpp:28-35 | received bytes survive exactly if mode and header stay |
| FrameCodec.FrameSplitter.SetConfigs | src/base/packet/FrameCodec.cpp:37-42 | received bytes are dropped and the first configuration becomes the main one |
| FrameCodec.FrameSplitter.Reset | src/base/packet/FrameCodec.h:48-51 | received bytes are dropped, the configuration stays |
| FrameCodec.FrameSplitter.Resync | src/base/packet/FrameCodec.cpp:64-89 | the cursor moves to the resynchronisation point, 0 bytes meaning that everything may still become a header |
| FrameCodec.FrameSplitter.ResyncMulti | src/base/packet/FrameCodec.cpp:175-203 | the same for several headers, but 1 is reported when the cursor does not move |
| FrameCodec.FrameSplitter.TryExtract | src/base/packet/FrameCodec.cpp:91-171 | one call takes the specified decision: it moves the cursor over the frame or garbage and appends the frame |
| FrameCodec.FrameSplitter.ExtractAll | src/base/packet/FrameCodec.cpp:47-48 | the loop over the lazy cursor yields the frames and rest that erasing every frame at once yields, and terminates unless the decision repeats |
| FrameCodec.FrameSplitter.Feed | src/base/packet/FrameCodec.cpp:44-60 | a feed emits the specified frames, leaves the clipped rest at the front and reports the endless loop |
| FrameEncoder.DecodeFrameOnce | src/base/packet/FrameCodec.cpp:205-243 | the in-place decoder succeeds exactly when the frame is well formed, and its payload window and tag are those of the message |
| FrameEncoder.NegativeLimitIsNoLimit | src/base/packet/FrameCodec.cpp:215-238 | a frame decodes under a negative limit as it does under the largest one |
| FrameEncoder.EncodeTlvFrameVal | src/base/data/frame/TestFrameGen.cpp:81-92 | the pushes build tag, length and the zero-padded value |
| FrameEncoder.EncodeHeaderLenFrameVal | src/base/data/frame/TestFrameGen.cpp:95-115 | the copies build header, length and the payload with every field at its offset |
| FrameEncoder.TlvRoundTrip | src/base/data/frame/TestFrameGen.cpp:81-92 | an encoded TLV frame decodes to its tag and value, and the splitter takes it whole |
| FrameEncoder.HeaderRoundTrip | src/base/data/frame/TestFrameGen.cpp:95-115 | an encoded header + length frame decodes to its payload if and only if the length field does not spoil the header; padding before it does no harm |
| RoundTrip.SplitterTakesEncodedIff | src/base/packet/FrameCodec.cpp:147-149 | the splitter takes an encoded frame whole if and only if there is a header and no gap between it and the length field |
| RoundTrip.DifferentHeadersSuffice | src/base/packet/FrameCodec.h:40-42 | different headers of one length make a group whose members can be told apart |
| RoundTrip.DecodedByItsHeader | src/base/data/frame/FrameDataSource.cpp:333-339 | a frame decodes under at most one configuration of a group, so the first match is the right one |
| RoundTrip.Attribution | src/base/packet/FrameCodec.cpp:94-119 | every frame the splitter cuts decodes under exactly the configuration whose header it was cut at |
| RoundTrip.StreamRoundTrip | src/base/data/frame/TestFrameGen.cpp:81-115 | any list of encoded messages, cut in any way, is split back into exactly those frames; each decodes to its message, under its own configuration; the loop gets stuck on the way if and only if there are several headers and a chunk ends inside one |
| Ethernet.ParseEthernetFrame | src/base/packet/PcapLink.cpp:20-75 | the offset-based parser agrees with parsing tags, IP packet and transport part in turn |
| Ethernet.TagsAreTransparent | src/base/packet/PcapLink.cpp:22-29 | any stack of 802.1Q/802.1ad tags inserted behind the MAC addresses changes nothing, for frames that parse and frames that do not |
| Ethernet.PaddingIsIgnored | src/base/packet/PcapLink.cpp:38-43 | bytes after the IPv4 total length change nothing |
| Ethernet.PayloadInsidePacket | src/base/packet/PcapLink.cpp:42-65 | a TCP payload reaches from behind both headers to the total length, a UDP payload as far as its own length says but not beyond the total length |
| Ethernet.WireRoundTrip | src/base/packet/PcapLink.cpp:20-75 | every TCP segment or UDP datagram, with any options, tags and padding, is parsed back to its addresses, ports, protocol, payload and flow key |
| Ethernet.FlowKeysAreExact | src/base/packet/PcapLink.cpp:72-73 | two flow keys are equal if and only if addresses, ports and direction agree |
| Ethernet.PacketParts | src/base/packet/PcapLink.cpp:69-73 | addresses, ports, payload and flow key of a parsed packet are those it was sent with |
| PacketMeaning.IpParsesIff | src/base/packet/PcapLink.cpp:33-75 | an IPv4 packet is parsed exactly if its lengths fit and it carries a TCP segment or UDP datagram, and every part of the result is told by its bytes: dotted addresses, ports, payload, flow text |
| PacketMeaning.FrameParsesIff | src/base/packet/PcapLink.cpp:20-75 | a frame is parsed exactly if such a packet stands behind any number of VLAN tags of both kinds |
| Flows.FlowSplitters.constructor | src/base/packet/PcapLink.h:44 | no flows yet |
| Flows.FlowSplitters.SetConfig | src/base/packet/PcapLink.cpp:90-94 | all flows are forgotten |
| Flows.FlowSplitters.SetConfigs | src/base/packet/PcapLink.cpp:96-100 | all flows are forgotten; the first configuration becomes the main one |
| Flows.FlowSplitters.Reset | src/base/packet/PcapLink.h:49 | all flows are forgotten, the configuration stays |
| Flows.FlowSplitters.AdmitFlow | src/base/packet/PcapLink.cpp:107-113 | a known flow keeps its bytes; a new one beyond 32 first drops all others; there are never more than 32 |
| Flows.FlowSplitters.Feed | src/base/packet/PcapLink.cpp:102-115 | a packet yields what its own flow's splitter yields and touches no other flow's bytes; a UDP payload is a frame |
| Flows.PacketOutcome | src/base/packet/PcapLink.cpp:102-115 | a UDP payload is one frame and touches no flow; a TCP packet changes its own flow alone, except that a new flow beyond 32 drops all the others |
| Flows.DatagramsAreFrames | src/base/packet/PcapLink.cpp:102-106 | in every capture each UDP packet yields its payload, and leaving the UDP packets out changes nothing of what the others yield |
| Flows.FlowsDoNotInterfere | src/base/packet/PcapLink.cpp:102-115 | over any capture, what a flow yields depends on its own payloads and on which flow keys occur, never on other flows' bytes; the source does not return from some packet of the capture if and only if some flow hangs on its own |
| Flows.FewFlows | src/base/packet/PcapLink.cpp:102-115 | while at most 32 flow keys occur, each flow yields what a fresh splitter fed only its payloads yields; the source returns from every packet with one configuration, and with several headers if and only if no packet ends where its flow leaves the beginning of a header |
| FieldCodec.FieldRoundTrip | src/base/data/frame/FrameDataSource.cpp:37-106 | what the device writes for a field in any cycle, in either byte order, is read as the intended value in the field's unit |
| FieldCodec.SignedRoundTrip | src/base/data/frame/FrameDataSource.cpp:92-102 | two's complement of one or two bytes is extended back to the signed value |
| FieldCodec.DeviceFieldDecodesIff | src/base/packet/PacketSpec.cpp:43-54 | what the device writes for a field can be decoded if and only if its type is neither i32 nor plain text |
| FieldCodec.ScaledSignedIff | src/base/data/frame/FrameDataSource.cpp:99-100 | a scaled signed field reads as value times scale if and only if the value is not negative |
| FieldMeaning.FieldMeans | src/base/data/frame/FrameDataSource.cpp:37-106 | for every payload: a field has a value exactly if its type is supported and its bytes lie in the payload, and what the bytes mean is told type by type, with digits, padding, enum entries and signs spelled out |
| FieldMeaning.FieldBytesMean | src/base/data/frame/TestFrameGen.cpp:180-239 | what the device sends for a field of every type in every cycle, as numbers in two's complement or copies of a byte |
| SimulatedDevice.IncrementalFrameGen.constructor | src/base/data/frame/TestFrameGen.cpp:176-178 | all counters start at cycle 0 |
| SimulatedDevice.IncrementalFrameGen.NextFieldBytes | src/base/data/frame/TestFrameGen.cpp:180-239 | the field's bytes for its count, which then moves on by one in 64 bits |
| SimulatedDevice.IncrementalFrameGen.NextFrames | src/base/data/frame/TestFrameGen.cpp:241-253 | a call sends the frames of the current cycle and moves every counter on together |
| SimulatedDevice.LayoutSlice | src/base/data/frame/TestFrameGen.cpp:101-105 | fields that do not overlap keep their own bytes in the payload |
| SimulatedDevice.HeaderDeviceConsistent | src/base/data/frame/TestFrameGen.cpp:241-253 | the data source reads every field of a cycle's frame as the value the device means |
| SimulatedDevice.TlvDeviceConsistent | src/base/data/frame/TestFrameGen.cpp:246-248 | the same for the frame of each field in TLV mode, which carries the field's tag |
| DeviceMeaning.CycleMeans | src/base/data/frame/TestFrameGen.cpp:81-115 | the frames of a cycle byte by byte: tag, length and padded value of each field, or header, length and a payload in which every byte is that of the last field over it, else zero |
| DataSource.FrameDataSource.constructor | src/base/data/frame/FrameDataSource.cpp:110-129 | fixed widths follow the type; fields are grouped by address, one group per address, no value yet |
| DataSource.FrameDataSource.PumpFrames | src/base/data/frame/FrameDataSource.cpp:324-375 | the grouped vectors, counters and queues after a batch are those of the frames taken one by one on a map of slots |
| DataSource.FrameDataSource.ReadSlot | src/base/data/frame/FrameDataSource.cpp:388-398 | the lookup in the groups finds exactly what the map of slots holds for the address |
| DataSource.FrameDataSource.DrainFrameLog | src/base/data/frame/FrameDataSource.cpp:427-433 | hands out the monitor log and empties it, nothing else |
| DataSource.FrameDataSource.DrainForwardFrames | src/base/data/frame/FrameDataSource.cpp:435-441 | hands out the forward queue and empties it, nothing else |
| DataSource.FrameDataSource.DisconnectSource | src/base/data/frame/FrameDataSource.cpp:242-243 | parsed values are lost, counters and queues stay |
| SlotCache.SlotCacheLaws | src/base/data/frame/FrameDataSource.cpp:318-375 | over every run: slots hold the latest value read for their address since the last disconnection, counters count the frames with a readable field and add up, log and queue are the last 200 and 100000 undrained frames |
| SlotMeaning.RunsMean | src/base/data/frame/FrameDataSource.cpp:318-375 | over every run, spelled out: a slot has a value exactly if some frame since the last disconnection had one for it, and which; counters are the numbers of frames with a value, in all and for each configuration; log and queue are the last 200 and 100000 frames not yet drained |
| SlotMeaning.ReadingIs | src/base/data/frame/FrameDataSource.cpp:324-356 | a field reads a value from a frame exactly if the first configuration that decodes the frame is the field's, or the frame carries the field's tag, and the payload has a value for it |
| SlotMeaning.NormalisedIs | src/base/data/frame/FrameDataSource.cpp:111-113 | a type that fixes its width sets it, and nothing else of a field changes |
| ProtocolGroup.MergeGroup | src/base/data/frame/FrameSourceSettings.cpp:223-256 | the nested loops collect each different configuration once, in order, and all fields |
| ProtocolGroup.MergedField | src/base/data/frame/FrameSourceSettings.cpp:238-254 | the address of merged field i is i and its index names a configuration equal to that of the member it comes from |
| ProtocolGroup.ConfigsDiffer | src/base/data/frame/FrameSourceSettings.cpp:225-249 | no two kept configurations are the same |
| ProtocolGroup.ConfigsKept | src/base/data/frame/FrameSourceSettings.cpp:225-249 | of members whose ten framing parameters agree the first one's configuration is kept, and no other, in order of appearance |
| ProtocolGroup.MergedKeepsField | src/base/data/frame/FrameSourceSettings.cpp:250-256 | every field of every member is in its place after the merge, filed under the configuration with the member's parameters, and unchanged in everything but place and file |
| ProtocolGroup.MembersFormGroup | src/base/data/frame/FrameSourceSettings.cpp:225-256 | members with distinguishable headers merge into configurations the splitter can tell apart |
| ProtocolGroup.GroupIsolation | src/base/data/frame/FrameDataSource.cpp:333-356 | whatever frame arrives, it changes only slots of members whose header it starts with |
| ProtocolGroup.GroupEndToEnd | src/base/data/frame/FrameDataSource.cpp:324-356 | a frame cut by the group's splitter changes only slots of the member whose header it was cut at |
| ImplicitBindings.Project.Synthesize | src/base/data/frame/FrameSourceSettings.cpp:336-435 | tags, bindings and next id after the loops over all components, or the endless renaming |
| ImplicitBindings.Project.FreeName | src/base/data/frame/FrameSourceSettings.cpp:389-391 | the renaming loop ends with the first candidate name that is free, and does not end if and only if every candidate is taken |
| ImplicitBindings.RenamingEndsIff | src/base/data/frame/FrameSourceSettings.cpp:390-391 | some candidate of all its turns is free if and only if the field's name or its one alternative is |
| ImplicitBindings.Project.EnsureTag | src/base/data/frame/FrameSourceSettings.cpp:380-417 | a tag at the slot is reused; otherwise one is added with the first free candidate name |
| ImplicitBindings.SynthesisEndsIff | src/base/data/frame/FrameSourceSettings.cpp:353-435 | the whole synthesis ends if and only if the names suffice, read off the project's tags and the fields without a tag at their slot: fields whose names are taken have alternatives that are free and differ |
| ImplicitBindings.DistinctAlternativesSuffice | src/base/data/frame/FrameSourceSettings.cpp:353-435 | for any names, alternatives that are free and differ from all other names and alternatives are enough for it to end |
| ImplicitBindings.SynthesisIsIdempotent | src/base/data/frame/FrameSourceSettings.cpp:336-435 | every component with a resolvable field gets a tag at its slot and a binding on its default property, and a second synthesis changes nothing, unless the first gets stuck, which is exactly when the names do not suffice |
| ImplicitBindings.BindingsNameSlots | src/base/data/frame/FrameSourceSettings.cpp:375-433 | every binding made names a tag at the run-time slot of its component's field |
| ImplicitBindings.DifferentSlotsDifferentTags | src/base/data/frame/FrameSourceSettings.cpp:337-339 | components whose fields have different slots never share a tag through bindings made |
| BoundFields.SplitsIff | src/base/data/frame/FrameSourceSettings.cpp:15-26 | a binding text names protocol and field exactly if it is the one, the first slash, and the other, with blanks around either |
| BoundFields.ResolvesIff | src/base/data/frame/FrameSourceSettings.cpp:355-378 | a component shows a field exactly if its text names one of a protocol, the first of that name, and it does so from the slot the running data source has for it, or else from the field's own index |
| BoundFields.SynthesisSteps | src/base/data/frame/FrameSourceSettings.cpp:353-435 | components in order: each that shows a field, and no other, gets a tag at the field's slot unless there is one, with a type that takes the field and a new name, and a binding on its property unless there is one |
| BoundFields.BindingsFollowSlots | src/base/data/frame/FrameSourceSettings.cpp:337-378 | every binding made for a component whose field the running data source keeps in a slot names a tag at that slot |
| BoundFields.EffectiveSlotsStayApart | src/base/data/frame/FrameSourceSettings.cpp:337-339 | components whose fields the running data source keeps in different slots never share a tag through bindings made |
| ImplicitBindings.ThreeNamesakesGetStuck | src/base/data/frame/FrameSourceSettings.cpp:388-391 | three fields of one name and index in three slots without tags always get it stuck |
| EndToEnd.SlotsShowLastReading | src/base/data/frame/FrameDataSource.cpp:318-398 | whatever messages are sent and however the line cuts them, each slot shows what the last message with a value for its field says, for TLV, one header and groups; the splitter gets stuck on the way exactly if a group is sent and a chunk ends inside a header |
| EndToEnd.CyclesAreSplit | src/base/data/frame/FrameDataSource.cpp:270-316 | the frames of all generators of the device over any cycles, cut on a byte line in any way, are split back exactly; the splitter gets stuck on the way if and only if a group is sent and a chunk ends inside a header |
| EndToEnd.SlotsShowLastCycle | src/base/data/frame/FrameDataSource.cpp:270-398 | after any cutting, splitting and pumping, every slot shows the value its field was meant to have in the last cycle, for TLV, one header and groups with a generator each; the splitter gets stuck on the way if and only if a group is sent and a chunk ends inside a header |
| EndToEnd.DeviceShowsLastCycle | src/base/data/frame/FrameDataSource.cpp:193-268 | on the device's own path, whole frames handed to the pump without a splitter, every slot shows the value its field was meant to have in the last cycle, wherever the length field stands |
| Forwarding.PollWorker.constructor | src/viewer/PollWorker.cpp:287-288 | every sink is down and free to try |
| Forwarding.PollWorker.ForwardFrames | src/viewer/PollWorker.cpp:287-329 | what a batch does to each sink, given what its link does, and to no other sink |
| Forwarding.PollWorker.KeepAlive | src/viewer/PollWorker.cpp:149-160 | TCP servers that are down and past their deadline try to listen, others stay as they are |
| Forwarding.PollWorker.StopSource | src/viewer/PollWorker.cpp:119-127 | every link goes down without counting as a failure |
| Forwarding.ForwardingLaws | src/viewer/PollWorker.cpp:287-329 | whatever links do, each frame is sent at most once and in order, and no connection is tried within two seconds of a failure |
| Forwarding.OfferedIsStream | src/viewer/PollWorker.cpp:290-316 | what is offered to a sink is the stream of frames drained from the source |
| Forwarding.HealthySinkGetsAll | src/viewer/PollWorker.cpp:290-316 | a sink that is up, has a peer and never fails is sent every frame |
| Forwarding.ForwardOutcome | src/viewer/PollWorker.cpp:287-329 | every case of a batch spelled out: dropped before the deadline, connected past it, dropped for two seconds if that fails, sent frame by frame until one fails, held back without a peer |
| Forwarding.KeepAliveOutcome | src/viewer/PollWorker.cpp:119-160 | every case of keep-alive and of stopping by hand |
| Forwarding.DeadlineIsLastFailure | src/viewer/PollWorker.cpp:149-329 | over every run nothing but a failure moves the deadline of a sink, and it moves it to exactly two seconds later |
| Forwarding.DownSinkGetsAll | src/viewer/PollWorker.cpp:287-329 | from its deadline on, while connections work, a sink that is down is sent every frame from the first batch on; a TCP server is up from its first keep-alive on |
| Forwarding.EverySinkRecovers | src/viewer/PollWorker.cpp:149-329 | whatever has happened before, once the deadline has passed and connections work, every frame offered from then on is sent |
| Engine.RuntimeEngine.constructor | src/base/runtime/RuntimeEngine.h:30 | a freshly bound project without run-time state |
| Engine.RuntimeEngine.Rebind | src/base/runtime/RuntimeEngine.h:33-42 | all run-time state is cleared |
| Engine.RuntimeEngine.Tick | src/base/runtime/RuntimeEngine.h:52 | only the clock moves |
| Engine.RuntimeEngine.ExecuteAction | src/base/runtime/RuntimeEngine.cpp:175-207 | one action with its cascade, nothing beyond depth 8 |
| Engine.RuntimeEngine.SetValueProperty | src/base/runtime/RuntimeEngine.cpp:139-173 | the property, the overlay if the property is bound, and the ValueChanged cascade |
| Engine.RuntimeEngine.FireRules | src/base/runtime/RuntimeEngine.cpp:167-171 | the rules an event triggers, in order, each on the state the previous one left |
| Engine.RuntimeEngine.RaiseComponentEvent | src/base/runtime/RuntimeEngine.cpp:112-118 | an event of a component with its cascade from depth 0 |
| Engine.RuntimeEngine.SetInteractiveValue | src/base/runtime/RuntimeEngine.cpp:120-137 | the converted value is written with its cascade, and one write-back is queued for the first binding |
| Engine.RuntimeEngine.Drain | src/base/runtime/RuntimeEngine.cpp:209-213 | hands out the queued actions and empties the queue |
| Engine.RuntimeEngine.OnTagChanged | src/base/runtime/RuntimeEngine.cpp:49-75 | bindings are refreshed and cascade before alarms are evaluated |
| Engine.RuntimeEngine.EvaluateAlarmRule | src/base/runtime/RuntimeEngine.cpp:77-110 | the alarm's new state, the list of active alarms and the events of affected components |
| Engine.RuntimeEngine.ApplyTagUpdates | src/base/runtime/RuntimeEngine.cpp:24-47 | a batch of updates, each on the state the previous one left |
| Engine.RuntimeEngine.AcknowledgeAlarm | src/base/runtime/RuntimeEngine.cpp:217-235 | the acknowledged alarm's state and the list, nothing else |
| Engine.RuntimeEngine.AcknowledgeAllAlarms | src/base/runtime/RuntimeEngine.cpp:237-239 | each alarm active at the call is acknowledged in turn |
| RuntimeCascade.FireKeepsCore | src/base/runtime/RuntimeEngine.cpp:139-207 | a cascade never touches tags, curves, alarms or the clock, and adds or removes no component |
| RuntimeAgenda.EventAgenda | src/base/runtime/RuntimeEngine.cpp:112-118 | an event with its recursive cascade does what working off an agenda does, item by item, each rule's effect and consequences spelled out, none deeper than 8 |
| RuntimeAgenda.InputAgenda | src/base/runtime/RuntimeEngine.cpp:120-137 | operating a property shows the value, works off the reactions, and queues one write-back to the tag of the first binding, behind all they queued |
| RuntimeAgenda.UpdateAgenda | src/base/runtime/RuntimeEngine.cpp:24-110 | a good update is recorded, then every property bound to the tag is refreshed with all that follows, then every alarm rule on the tag is looked at, and alarms that go on or off make the listed and then the bound components react |
| RuntimeAgenda.RunWorksOff | src/base/runtime/RuntimeEngine.cpp:24-239 | over every run of updates, events, inputs and acknowledgements the engine does exactly that |
| RuntimeCascade.EventWorkBound | src/base/runtime/RuntimeEngine.cpp:112-183 | with n rules, however cyclic, one event carries out at most n + n^2 + ... + n^9 actions |
| RuntimeCascade.EventWorkBoundAttained | src/base/runtime/RuntimeEngine.cpp:162-183 | rules that all set their own source reach that bound exactly, for every n |
| RuntimeCascade.CapMakesNoDifference | src/base/runtime/RuntimeEngine.cpp:175-207 | if a rank drops along every ValueChanged rule and fits under the cap, the capped execution is the unlimited one |
| RuntimeCascade.CascadeUncapped | src/base/runtime/RuntimeEngine.cpp:162-171 | the same for all rules of a component |
| RuntimeUncapped.RunUncapped | src/base/runtime/RuntimeEngine.cpp:24-207 | if such a rank keeps every rule under the cap from the depth its event starts at, every run of updates, events, inputs and acknowledgements is the run without a cap |
| RuntimeAlarms.JudgeLaws | src/base/runtime/RuntimeEngine.cpp:77-110 | looking at a rule leaves its alarm active exactly if its condition holds or it is latched, and changes no latched alarm and no other alarm |
| RuntimeAlarms.AlarmLaws | src/base/runtime/RuntimeEngine.cpp:24-110 | over every run the list names exactly the active rules, once each, and latched implies active; with unique ids, while a rule's tag has good data its alarm is active if and only if its condition holds or the alarm is latched |
| RuntimeAlarms.AlarmLawsFromRebind | src/base/runtime/RuntimeEngine.h:33-42 | from a rebind without good data on, all of this holds after every run |
| RuntimeAlarms.LatchedUntilAcknowledged | src/base/runtime/RuntimeEngine.cpp:101-110 | over every run without its acknowledgement a latched alarm stays latched and active |
| RuntimeAlarms.AcknowledgeEnds | src/base/runtime/RuntimeEngine.cpp:217-235 | acknowledging ends the latch, and the alarm stays active exactly if it was and its condition holds |
| RuntimeAlarms.AcknowledgeAllErasesNothingIff | src/base/runtime/RuntimeEngine.cpp:237-239 | acknowledging all alarms erases nothing from the list it goes through if and only if the condition of every listed alarm's rule still holds |
| RuntimeAlarms.BadUpdatesChangeNoAlarm | src/base/runtime/RuntimeEngine.cpp:32-45 | updates without good data change tag qualities and nothing else |
| RuntimeBindings.FireSpares | src/base/runtime/RuntimeEngine.cpp:139-207 | no cascade changes a property that only one tag feeds, or the type of a component |
| RuntimeBindings.TagChangedShows | src/base/runtime/RuntimeEngine.cpp:57-75 | a changed tag reaches the property it feeds through all cascades and alarms that follow |
| RuntimeBindings.BindingShowsLastGood | src/base/runtime/RuntimeEngine.cpp:24-75 | over every run a property that only one tag feeds and nobody operates shows the tag's last good value in the declared type |
| RuntimeBindings.CurveIsLastSamples | src/base/runtime/RuntimeEngine.cpp:38-42 | over every run a tag's curve is the last 512 of its good samples with their times |
| RuntimeMeaning.TagIsLastReading | src/base/runtime/RuntimeEngine.cpp:26-37 | over every run a tag has the time and quality of its last update and the value of its last good one |
| RuntimeMeaning.CurveIsLastPoints | src/base/runtime/RuntimeEngine.cpp:38-42 | over every run a tag's curve is the last 512 of its good readings, as numbers, with their times |
| RuntimeMeaning.PropertyDepictsLastGood | src/base/runtime/RuntimeEngine.cpp:335-376 | over every run a property that only one tag feeds and nobody operates shows the tag's last good reading as text, flag or number, spelled out for each declared type and each kind of value |
| RuntimeMeaning.AlarmIsLastGood | src/base/runtime/RuntimeEngine.cpp:77-239 | over every run from a rebind with unique rule ids: an alarm that is not latched is on if and only if the last good value of its tag is beyond the threshold, for each of the six comparisons, and nobody has acknowledged it while the data was bad; without good data it is off |
| RuntimeMeaning.AcknowledgedWithoutData | src/base/runtime/RuntimeEngine.cpp:217-235 | the smallest case in which the last good value alone does not decide: a rule for more than 50, a reading of 100, a loss of data, an acknowledgement, and the alarm is off |

## Left out

- Sockets, serial ports, libusb, VISA, Npcap, threads, mutexes and logging: a link is only what it delivers, or whether a connection or send succeeds.
- The user interface, JSON persistence, the LLM client, undo, and the component registry beyond the property types it declares.
- Layout and arithmetic of floating point numbers: the layout is a parameter (`Floats`) assumed exact for 0 to 100, arithmetic is over the reals, and the rounding of curve samples to single precision is not modelled.
- Number formatting ("%.4g") and the property types of components are parameters (`Env`); property texts of protocol components and the effective slot table are inputs of the group merge and the binding synthesis.
- Engineering conversion in `readTags`, the random frame generator, the BPF text, the display queries of the engine and the bounded hand-over queue of the simulated device: easy, or I/O.
- Widths: integers of the source that can overflow only with headers, frames or offsets of 2 GB are unbounded here.
- FrameEncoder.DecodeFrameOnce: not for a negative maxFrameLen with an announced length of 2^31 or more, whose conversion to a 32-bit length the source does not guard.
- FieldCodec.FieldRoundTrip: scale 1 for signed fields, whose other scales are in `FieldCodec.ScaledSignedIff`, and enum values that fit their width, since others are cut to it.
- MultiHeader.ChunkingIrrelevantIff: where one header starts with another, the order of the configurations decides; such sets are not classified. The laws about runs hold for every set in which no header stands inside another.
- FrameCodec.FrameSplitter.Feed: after a hang the source never returns, so nothing is said about its buffer.
- Flows.FlowsDoNotInterfere: what the flows yield after a packet the source does not return from is what they would yield if it did.
- Engine.RuntimeEngine.AcknowledgeAllAlarms: over a copy of the list; the source's iteration over the vector it erases from is undefined unless nothing is erased (`RuntimeAlarms.AcknowledgeAllErasesNothingIff`).
- Forwarding.ForwardingLaws: the clock does not run backwards; a round takes no time.
- ImplicitBindings.SynthesisIsIdempotent: the exact condition for ending is for fields none of which is named like the alternative of another, as names without '@' never are (`ImplicitBindings.NoAtSignIsPlain`); for other names it ends exactly if giving the fields names one after the other succeeds (`ImplicitBindings.EndsIffNamed`), for which `ImplicitBindings.DistinctAlternativesSuffice` is enough.
- DataSource.FrameDataSource.constructor: a source that has just been connected; reconnecting keeps counters and the splitter's bytes, and is not an operation of the run.
