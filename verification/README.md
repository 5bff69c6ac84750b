# Media-plane verification

A Dafny model of the media plane of the SFU and VoIP server, with proofs of what it is for: video
that arrives as it was sent, streams that stay continuous when a receiver is moved between simulcast
layers, bandwidth shared without overspending, lost packets asked for and resent, SRTP ends that agree
on the packet index, and audio that leaves the jitter buffer complete and in order.

`dafny verify dfyconfig.toml` checks the whole project. There is one module per component, in a file
of its own:

| file | component | main results |
|---|---|---|
| Bytes.dfy | bytes, big-endian fields, exclusive or | shared by the others |
| AnnexB.dfy | Annex B splitter | the iterator yields the split; splitting undoes joining and is idempotent |
| H264.dfy, VideoRoundTrip.dfy | FU-A packetiser, depacketiser | exactly which frames come back as they were encoded, and what follows one that does not |
| RtpPacket.dfy | RTP accessors and writers | packets and records correspond one to one; lens laws |
| Rollover.dfy, Srtp.dfy, SrtpFormat.dfy, SrtpSession.dfy | rollover counters, SRTP, SRTCP | RFC 3711 counter block, every byte of a protected packet, exactly when one is accepted, end-to-end exactness of interleaved streams under loss and reordering |
| TruncatedCounter.dfy | counter expansion | exactly when it gives the full counter back |
| Vp8Header.dfy, Vp8Writer.dfy, Vp8Forwarding.dfy, Vp8Continuity.dfy | VP8 descriptor, id rewriting | written headers read back; continuity and no reuse over every interleaving of sources; exactly when outgoing gaps are the true gaps |
| Allocation.dfy, AllocationPlan.dfy | bandwidth allocation | the longest affordable prefix of a plan; the plan told source by source; monotone in the bandwidth |
| LayerSwitch.dfy | layer switching per destination | exactly which packets go to which destination, by requests and key frames alone |
| DataRate.dfy | rate of a layer | the history is exactly the last five seconds, the rate that of it |
| KeySortedCache.dfy, Nack.dfy | NACK bookkeeping | the shortcut agrees with the loop; exactly the wanted numbers are tracked, and asked for by the clock |
| TwoGenerationCache.dfy, Rtx.dfy, VideoSender.dfy, VideoRelay.dfy | expiring cache, retransmission, transport-wide numbers, the sending path as one | never stale; from incoming packet to resend, a packet comes back byte for byte but for its new transport-wide number |
| JitterBuffer.dfy, JitterStream.dfy, JitterPlayout.dfy, FixedDqueue.dfy | audio buffers | samples and payloads are conserved; exactly when a read gives samples; streams in order come out as they are; exactly when reordered ones come out in order |
| Dtmf.dfy | DTMF debouncing | events are the changes of the debounced signal, however samples are batched |
| Fax.dfy | UDPTL | each packet carries exactly the last four messages |

Code that changes state is a class or a method, proved equal to a specification function of its
inputs and its old state; the promises are then lemmas about those functions, most of them over whole
runs. Bytes are integers from 0 to 255, so masks are remainders and shifts are divisions. Instants are
integers, and I/O results (a decoded packet, the time, the order in which packets arrive, what Redis
stored) are parameters.

Where the code and its comments or names differ, the model follows the code:

- the jitter buffer multiplies the rollover counter by 65535, so packet 65535 and the next packet 0
  are queued under one number, and the 0 leaves first if the 65535 is still queued
  (`JitterBuffer.ExtendedOrder`, `JitterStreams.StreamGrows`);
- `set_extension_bytesmut` puts the new extension block behind an old one
  instead of replacing it (`RtpPackets.InPlaceAgrees`);
- an Off event can name a tone that never went on (`Dtmf.OffMatches`, `Dtmf.OffNeedNotMatch`);
- a UDPTL receiver drops the first message after a wrap that it sees without its predecessor
  (`T38.TakenUnlessWrapped`);
- a whole NAL unit of type 24 or 28 is read as an aggregate or a fragment, and its frame never comes
  back (`VideoRoundTrips.FrameRoundTrip`, `H264.UndeliverableUnit`);
- a frame that is never finished blocks the decoder for every later one
  (`VideoRoundTrips.LostMarkerBlocks`, `VideoRoundTrips.EachFrameExact`);
- a resent packet is not the packet first sent: it carries a new transport-wide number
  (`VideoSenders.ResendRecovers`);
- the rollover counter is updated before a packet is authenticated
  (`SrtpSessions.HarmlessExactly`, `SrtpSessions.StrayBelowZero`);
- a packet from before the wraps that the first packet of its epoch had gone through goes out far
  ahead (`Vp8Continuity.TrueGapsKept`, `Vp8Continuity.BehindTheWrap`);
- the two-generation cache needs a positive lifetime for its stated minimum
  (`TwoGenerationCaches.ZeroLifetimeLosesAtOnce`).

## Model

| member | source | states |
|---|---|---|
| AnnexB.SplitBySliceIter.constructor | codec/src/h264.rs:296-298 | a new iterator has all the NAL units of the stream ahead of it |
| AnnexB.SplitBySliceIter.Next | codec/src/h264.rs:304-341 | each call yields the next NAL unit of the pure split and moves forward; None exactly when none is left |
| AnnexB.SplitLosesOnlyStartCodes | codec/src/h264.rs:304-341 | the start codes and the pieces spell out the stream again, from any position |
| AnnexB.SplitYieldsWellFormed | codec/src/h264.rs:304-341 | no piece is empty or holds a start code |
| AnnexB.SplitJoin | codec/src/h264.rs:304-341 | splitting gives back any NAL units joined by four-byte start codes |
| AnnexB.SplitNormalises | codec/src/h264.rs:304-341 | on every byte string, split after join after split is split |
| H264.EncodePackets | codec/src/h264.rs:147-179 | the packetising loops produce the packets of all NAL units of all encoded packets, in order |
| H264.EncodePacket | codec/src/h264.rs:149-179 | the loop over the resumable iterator produces the packets of the pure split |
| H264.PacketiseNal | codec/src/h264.rs:151-178 | one NAL unit goes out whole up to 1205 bytes and as FU-A fragments of 1200 bytes above that |
| H264.PacketsExactly | codec/src/h264.rs:151-177 | byte for byte, the packets of a unit of more than 1205 bytes: at least two, of at most 1202 bytes, packet i with bytes 1 + 1200 i and on, the start bit in the first alone and the end bit in the last alone; any other unit goes out whole |
| H264.H264Decoder.Decode | codec/src/h264.rs:194-274 | one call of the depacketiser: new buffer, timestamp and outcome, for every packet, error paths included |
| H264.H264Decoder.UnpackStapA | codec/src/h264.rs:240-262 | the STAP-A loop appends the units up to the first that does not fit |
| H264.OutcomeExactly | codec/src/h264.rs:200-274 | each error exactly when its cause is there: empty, foreign timestamp, cut fragment, fragment with start and end, aggregate whose sizes do not add up; otherwise bytes are handed over exactly at a marker that is not on a bare parameter set |
| H264.AggregateRoundTrip | codec/src/h264.rs:240-262 | reading an aggregate gives exactly the units it was built from |
| H264.FragmentHeader | codec/src/h264.rs:154-173 | the fragment headers restore the NAL header but for its forbidden bit, and the first fragment is not an end |
| VideoRoundTrips.FeedUnits | codec/src/h264.rs:200-274 | whatever the NAL units of a frame, their packets add to the buffer what each unit alone does; it is handed over and cleared, or it stays, as the last outcome says |
| AnnexB.StartCodesOfJoin | codec/src/h264.rs:304-341 | well-formed units joined hold exactly one start code each |
| VideoRoundTrips.UndeliverableNeverAddsUp | codec/src/h264.rs:220-262 | units that are not all deliverable never add up to themselves joined |
| VideoRoundTrips.FrameRoundTrip | codec/src/h264.rs:149-274 | with nothing pending, a frame comes back as its NAL units behind four-byte start codes exactly when it has one, none is sent whole with type 24 or 28, no fragmented one has its forbidden bit set, and the last is not a bare SPS or PPS |
| VideoRoundTrips.FramePlays | codec/src/h264.rs:200-274 | the calls for such a frame are all pending but the last, which leaves nothing behind |
| VideoRoundTrips.VideoRoundTrip | codec/src/h264.rs:149-274 | all frames of a video come back exactly when each of them would alone |
| VideoRoundTrips.EachFrameExact | codec/src/h264.rs:149-274 | with timestamps that do not repeat, a frame comes back exactly when it would alone and the frames before it left nothing pending |
| VideoRoundTrips.StaysBlocked | codec/src/h264.rs:203-209 | with something pending, frames of other timestamps change nothing and only give timestamp errors |
| VideoRoundTrips.LostMarkerBlocks | codec/src/h264.rs:203-209 | a frame that loses its last packets leaves something pending, and then no packet of another timestamp is taken |
| VideoRoundTrips.StreamCarriesNals | codec/src/h264.rs:149-274 | the stream handed over splits into the very units that were sent |
| H264.WholeUnitExact | codec/src/h264.rs:200-274 | a unit sent whole comes back exactly when its type is none of 7, 8, 24 and 28 |
| H264.UndeliverableUnit | codec/src/h264.rs:220-239 | a concrete whole unit of type 28 that does not come back |
| RtpPackets.Parse | media/src/packet.rs:227-400 | the record of a packet agrees with every accessor |
| RtpPackets.SerialiseParse | media/src/packet.rs:241-250 | a valid packet is its record written out: the offsets leave no byte out |
| RtpPackets.ParseSerialise | media/src/packet.rs:241-250 | every record with fields in range is that of a valid packet |
| RtpPackets.WireExample | media/src/packet.rs:227-400 | one packet, with the wire bytes written out: every field where section 5.1 of RFC 3550 puts it |
| RtpPackets.WithSequence | media/src/packet.rs:293-300 | changes the sequence number and nothing else, header extension and payload included |
| RtpPackets.WithTimestamp | media/src/packet.rs:330-333 | changes the timestamp and nothing else |
| RtpPackets.WithSsrc | media/src/packet.rs:263-270 | changes the SSRC and nothing else |
| RtpPackets.WithMarker | media/src/packet.rs:308-316 | changes the marker and nothing else |
| RtpPackets.WithPayloadType | media/src/packet.rs:346-360 | changes the payload type to the low seven bits of the new one and nothing else, the marker included |
| RtpPackets.WithPayload | media/src/packet.rs:362-374 | changes the payload and nothing else |
| RtpPackets.SetExtension | media/src/packet.rs:410-467 | the extension becomes the new block, zero-padded to words under the one-byte profile; all else is kept |
| RtpPackets.SetExtensionOverwrites | media/src/packet.rs:410-467 | a second set overwrites the first |
| RtpPackets.SetExtensionGet | media/src/packet.rs:410-510 | get after set gives the padded data; set after get changes nothing exactly under the one-byte profile |
| RtpPackets.RemoteHop | media/src/stream.rs:4172-4175 | source and destination survive the hop to a remote sender with the rest of the packet |
| RtpPackets.RtpPacket.SetExtensionInPlace | media/src/packet.rs:471-500 | the in-place writer puts the new block before the payload and keeps an old one |
| RtpPackets.InPlaceAgrees | media/src/packet.rs:471-500 | it agrees with the replacing writer exactly on packets without an extension |
| Rollover.StepExact | media/src/srtp.rs:196-228 | from the right counter, a step of at most 100 either way gives the right counter and never wraps it |
| Rollover.ToleranceIsSharp | media/src/srtp.rs:196-228 | 100 is the largest distance at which every step is counted right |
| Rollover.TrackExact | media/src/srtp.rs:196-228 | over every run of such steps the counter is the index divided by 65536 after every packet |
| Srtp.GenerateCounter | media/src/srtp.rs:329-352 | the two filling loops compute the counter block |
| Srtp.CounterBlockIsRfc3711 | media/src/srtp.rs:329-352 | as a number the block is the formula of section 4.1.1 of RFC 3711 |
| Srtp.CounterBlockInjective | media/src/srtp.rs:329-352 | under one salt, blocks are equal exactly when SSRC, counter and sequence number are |
| Srtp.CryptoContext.UpdateRoc | media/src/srtp.rs:170-228 | the counter of the packet's SSRC moves by the estimation rule, the stored one follows, all other streams stay |
| Srtp.CryptoContext.NextIndex | media/src/srtp.rs:185-191 | the SRTCP index advances and restarts at 0 past its maximum |
| Srtp.CryptoContext.EncryptRtp | media/src/srtp.rs:241-253 | the packet becomes its protected form in place |
| Srtp.CryptoContext.DecryptRtp | media/src/srtp.rs:256-270 | too short a packet, a wrong tag, a right tag over a cut-short header and success are told apart, in that order |
| Srtp.CryptoContext.EncryptRtcp | media/src/srtp.rs:273-297 | the packet, the word with the E bit and the index, and the tag |
| Srtp.CryptoContext.DecryptRtcp | media/src/srtp.rs:300-326 | a clear E bit, too short a packet, a wrong tag and success are told apart |
| SrtpFormats.XorBits | media/src/srtp.rs:247-249 | exclusive or, bit by bit |
| SrtpFormats.OneBlock | media/src/srtp.rs:329-352 | the counter block is the one 16-byte string that spells the number of section 4.1.1 of RFC 3711 |
| SrtpFormats.ProtectedBytes | media/src/srtp.rs:241-253 | the bytes of an SRTP packet: header in clear, payload byte i xor byte i of the keystream of the block of RFC 3711 for its own SSRC, counter and sequence number, and the front of the MAC over these and the counter |
| SrtpFormats.AcceptedExactly | media/src/srtp.rs:231-270 | for every wire: refused exactly when the last bytes are not the front of the MAC over the rest and the counter; otherwise the answer is the packet with just its payload unmasked |
| SrtpFormats.ProtectedRtcpBytes | media/src/srtp.rs:273-297 | the bytes of an SRTCP packet: eight in clear, the others masked, the E bit with the low 31 bits of the index, and the front of the MAC over all of these |
| SrtpFormats.RtcpAcceptedExactly | media/src/srtp.rs:300-326 | with the E bit clear the packet is taken as it stands; otherwise it is refused exactly when its tag is wrong, and else unmasked under the index it carries |
| Srtp.CipherKeepsHeader | media/src/srtp.rs:241-253 | encryption leaves the header, SSRC and sequence number readable |
| Srtp.ProtectRoundTrip | media/src/srtp.rs:241-270 | under one counter, decrypting a protected packet returns it exactly |
| Srtp.RtcpRoundTrip | media/src/srtp.rs:273-326 | SRTCP decryption undoes encryption for every index up to 0x7FFFFFFF |
| Srtp.RtcpIndexCounts | media/src/srtp.rs:185-191 | the n-th SRTCP packet has index n modulo 2^31 |
| Srtp.RtcpBlocksDistinct | media/src/srtp.rs:185-191 | SRTCP packets of a context share a counter block only when 2^31 packets apart |
| Srtp.StoreFollows | media/src/srtp.rs:196-228 | after every packet the stored counter of every live stream is the one in memory |
| Srtp.StreamsIndependent | media/src/srtp.rs:170-182 | however streams interleave, each counter is what its own packets alone give |
| SrtpSessions.CountedExactly | media/src/srtp.rs:170-228 | however streams interleave, the counter after each packet is its own index divided by 65536 |
| SrtpSessions.SentUnderOwnIndex | media/src/srtp.rs:170-253 | every packet of a sender's interleaved streams is protected under its own index divided by 65536 |
| SrtpSessions.InterleavedEndToEnd | media/src/srtp.rs:170-270 | sender and receiver of any interleaved streams, with gaps, loss and reordering within 100 in each: every packet that arrives is the packet that was sent |
| SrtpSessions.EndToEnd | media/src/srtp.rs:170-270 | for one gap-free stream: whatever arrives, lost, doubled or reordered within 100, is decrypted to the packet sent |
| SrtpSessions.HarmlessExactly | media/src/srtp.rs:196-228 | after a packet that is counted but not authenticated, whichever packet of the stream comes next within 100 is counted right, exactly when the stray number is safe at that place: a test on two 16-bit numbers, for every place in every epoch |
| SrtpSessions.StrayBelowZero | media/src/srtp.rs:214-219 | in the first epoch such a packet takes the counter below zero exactly when it is numbered above 65435 and the last packet below 100 |
| SrtpSessions.UnauthenticatedRtcp | media/src/srtp.rs:300-308 | SRTCP with a wrong tag is taken exactly when its E bit is clear, and then as it stands |
| TruncatedCounter.ExpandExact | media/src/transportcc.rs:426-460 | expansion gives the full counter back exactly when it is near enough to the largest seen |
| TruncatedCounter.ExpandRunExact | media/src/transportcc.rs:426-460 | over every run within half the modulus of the running maximum all counters come back |
| Vp8Header.Read | codec/src/vp8.rs:123-195 | the cursor-moving reader computes the positional parse, errors included |
| Vp8Header.ModifyHeader | codec/src/vp8.rs:286-294 | in place, bytes 2 to 4 take the new ids and nothing else changes |
| Vp8Header.BothIdsPresent | codec/src/vp8.rs:123-195 | a header with both ids has the five bytes that are overwritten |
| Vp8Header.ModifiedReadsBack | codec/src/vp8.rs:286-294 | the modified header reads as the old one with just the two ids replaced |
| Vp8Writers.WrittenReads | codec/src/vp8.rs:123-205 | every payload written by sections 4.2 and 4.3 of RFC 7741 and section 9.1 of RFC 6386 reads back: picture id, TL0PICIDX, whether it starts a key frame, and its width and height without their scaling bits |
| Vp8Writers.WrongFormatExactly | codec/src/vp8.rs:131-136 | a payload is of a wrong format exactly when it has a picture id of seven bits |
| Vp8Forwarding.VideoStreamSenderLocal.SwitchSource | media/src/stream.rs:4320-4336 | a change of SSRC restarts the source's ids one gap above the shared mark |
| Vp8Forwarding.VideoStreamSenderLocal.ReceiveRtp | media/src/stream.rs:4300-4396 | one packet: the new state of all sources, the mark, and the outgoing ids or the error |
| Vp8Forwarding.SwitchStartsAboveMark | media/src/stream.rs:4320-4375 | the switching packet goes out exactly two sequence numbers and one of each other id above the mark |
| Vp8Forwarding.ForwardedExactly | media/src/stream.rs:4339-4375 | inside an epoch a packet is dropped exactly when one of its widened counters is below that of the epoch's first packet; otherwise it goes out at its distance from that one, unless a counter would pass 64 bits |
| Vp8Forwarding.ForwardingIsContinuous | media/src/stream.rs:4300-4396 | over every interleaving the mark dominates all ids sent, epochs of a source lie one above the other, gaps inside an epoch are kept |
| Vp8Forwarding.NoNumberReused | media/src/stream.rs:4300-4396 | in each of the four counters, two packets of a source share an outgoing value exactly when they share epoch and incoming value |
| Vp8Forwarding.EpochOpensAboveAll | media/src/stream.rs:4320-4336 | a switch goes out above every id any source has sent |
| Vp8Forwarding.OutgoingReads | media/src/stream.rs:4377-4387 | the packet built reads back with its template's fields, the rewritten ids and the incoming marker and payload |
| Vp8Continuity.WidenedExactly | media/src/stream.rs:4339-4360 | the four counters are widened to their true values less the wraps of the epoch's first packet exactly when each is recovered: not from before those wraps, and near enough to the largest of the epoch |
| Vp8Continuity.AllRightIffClose | media/src/stream.rs:4300-4360 | over every run all counters are widened right exactly when all are recovered |
| Vp8Continuity.NearIsRecovered | media/src/transportcc.rs:426-460 | counters within half of each modulus of the largest, and not from before the base, are recovered |
| Vp8Continuity.OffsetExact | media/src/stream.rs:4339-4375 | a packet forwarded inside an epoch is as far from the epoch's first outgoing ids as its true counters are from the first packet's, exactly when it is recovered |
| Vp8Continuity.RecoveredIsForwarded | media/src/stream.rs:4300-4375 | over every run the same in true counters, for a recovered packet |
| Vp8Continuity.TrueGapsKept | media/src/stream.rs:4300-4396 | of two packets of one source forwarded in one epoch, the later goes out exactly as far from the earlier as it truly is, if and only if it is recovered |
| Vp8Continuity.BehindTheWrap | media/src/transportcc.rs:426-460 | a concrete packet from before the wraps of its epoch's first packet goes out 65535 ahead |
| VideoSenders.Template | media/src/stream.rs:4221-4229 | the template has the source's SSRC and payload type, and room for a transport-wide number in extension element 3 |
| VideoSenders.VideoStreamSender.BuildOutgoing | media/src/stream.rs:4377-4387 | setter by setter, the outgoing packet of the forwarding model |
| VideoSenders.OutgoingIsStampable | media/src/stream.rs:4377-4407 | every packet built from the template has room for the stamp, and its extension then is element 3 with the transport-wide number |
| VideoSenders.Stamped | media/src/stream.rs:4401-4407 | the stamp replaces the last two bytes of the first word of the extension and nothing else |
| VideoSenders.StampLaws | media/src/stream.rs:4401-4407 | a stamp reads back, a second overwrites the first, and the same again changes nothing |
| VideoSenders.VideoStreamSender.SendRtpPacket | media/src/stream.rs:4400-4407 | the next transport-wide number goes into the packet, in place |
| VideoSenders.VideoStreamSender.Forward | media/src/stream.rs:4389-4393 | the packet is remembered as it was built and leaves with its stamp |
| VideoSenders.VideoStreamSender.Resend | media/src/stream.rs:4475-4481 | a remembered packet leaves wrapped and stamped anew; nothing is sent or counted on a miss |
| VideoSenders.StampsAreConsecutive | media/src/stream.rs:4389-4486 | over every run first sends and resends together carry consecutive transport-wide numbers |
| Allocation.LoopAllocations | media/src/stream.rs:5486-5568 | the nested loops grant a plan's steps until one does not fit; they terminate on the number of layers left |
| Allocation.OfferLayer | media/src/stream.rs:5500-5566 | the body for one layer keeps the running total equal to the sum of the rates granted, so the subtraction never underflows |
| Allocation.SpendIsLongestAffordable | media/src/stream.rs:5494-5567 | the result is the longest prefix of the plan that stays within the limit, the first grant aside |
| Allocation.FitsOrSingle | media/src/stream.rs:5494-5567 | the rates granted fit the limit or exactly one source is granted anything |
| Allocation.GrantsWheneverEligible | media/src/stream.rs:5494-5567 | something is granted exactly when some layer is eligible |
| Allocation.GrantsOwnLayers | media/src/stream.rs:5494-5567 | a source is only granted its own eligible layers, under their own rates |
| Allocation.MoreBandwidthNeverHurts | media/src/stream.rs:5454-5567 | with more bandwidth no source is dropped, and no rate falls but that of a screen share offering several layers, which the caller never does |
| Allocation.DemotedScreen | media/src/stream.rs:5521-5529 | a concrete screen share with two layers whose rate falls |
| Allocation.OrderIsUnique | media/src/stream.rs:5475-5484 | the sort has one result, whatever order the sources come in |
| Allocation.FirstSourceIsServed | media/src/stream.rs:5475-5568 | the source sorted first is served if its first layer is eligible, and is a screen share if there is one |
| AllocationPlans.PlanExactly | media/src/stream.rs:5494-5567 | the grants without a limit, told by each source's layers alone: exactly the layers it moves to, round after round and in the order of the sources |
| AllocationPlans.ClimbsToEnough | media/src/stream.rs:5505-5563 | a source whose usable layers do not fall in rate, or a screen share, climbs to its first usable layer with 3 * height >= 2 * requested height, or else to its last usable one |
| AllocationPlans.EnoughBandwidth | media/src/stream.rs:5486-5567 | with bandwidth for all layers every source is granted just that layer |
| AllocationPlans.NeverPastEnough | media/src/stream.rs:5553-5559 | whatever the limit, nothing is granted to a source after a layer that is near enough to the height it asked for |
| AllocationPlans.GuessedRates | media/src/stream.rs:5516-5567 | a camera with three layers of unknown rate: what it is granted within every limit |
| AllocationPlans.SortsByKey | media/src/stream.rs:5475-5484 | the order of the sources is that of their keys, largest first, compared where they first differ |
| LayerSwitch.VideoStreamReceiver.UpdateDestinationLayer | media/src/stream.rs:5142-5194 | a request changes one destination's state, and removes it when no layer is asked for |
| LayerSwitch.VideoStreamReceiver.ForwardPacket | media/src/stream.rs:5069-5101 | the loop over destinations reaches the same states and receivers whatever its order |
| LayerSwitch.VideoStreamReceiver.Offer | media/src/stream.rs:5070-5101 | what one packet does for one destination |
| LayerSwitch.TargetIsLastRequest | media/src/stream.rs:5070-5178 | over every run a destination's target is its last request, it switches between different layers only, and it is on the layer it last got |
| LayerSwitch.SwitchesOnKeyFrames | media/src/stream.rs:5070-5101 | a packet of another layer than the last one sent is a key frame of the layer last requested |
| LayerSwitch.StateIsTold | media/src/stream.rs:5070-5194 | over every run the state is told by requests and key frames alone: the layer the destination is on and the one last requested |
| LayerSwitch.ForwardedExactly | media/src/stream.rs:5070-5101 | over every run a packet goes to a destination exactly when it is of the layer the destination is on, or a key frame of the layer last requested |
| LayerSwitch.DestinationsIndependent | media/src/stream.rs:5070-5178 | requests of other destinations never matter |
| DataRates.DataRateTracker.Push | media/src/stream.rs:4644-4647 | the sample goes in front and the total stays the sum |
| DataRates.DataRateTracker.Update | media/src/stream.rs:4650-4674 | old samples go, the total stays the sum without underflow, the rate is that of what is left |
| DataRates.HistoryIsWindow | media/src/stream.rs:4644-4674 | over every run the history is exactly the samples not older than five seconds at the last update |
| DataRates.WithinExactly | media/src/stream.rs:4650-4662 | the samples of the window are exactly those not older than its deadline, each as often as it was pushed |
| DataRates.RateIsWindowed | media/src/stream.rs:4650-4674 | the rate after an update is the bits of the last five seconds over their span, none below half a second |
| DataRates.RateExactly | media/src/stream.rs:4650-4674 | that rate in numbers: none without a sample or below half a second, otherwise the largest whole rate not above the average |
| KeySortedCaches.KeySortedCache.Insert | media/src/key_sorted_cache.rs:25-32 | the entry goes in and, above the limit, the smallest key goes out |
| KeySortedCaches.KeySortedCache.Remove | media/src/key_sorted_cache.rs:45-48 | the key goes and nothing else |
| KeySortedCaches.RangeKeepsWindow | media/src/nack.rs:59-75 | inserting a run of new numbers keeps, within the limit below its end, exactly the old and the new ones |
| KeySortedCaches.LongRange | media/src/nack.rs:59-75 | a run as long as the limit leaves exactly its last numbers, whatever was there |
| KeySortedCaches.ShortcutAgrees | media/src/nack.rs:59-75 | starting a new cache for a long run leaves the same as inserting every number |
| Nack.NackSender.Jump | media/src/nack.rs:59-75 | with or without the shortcut the cache is that of inserting every missing number |
| Nack.NackSender.RememberReceived | media/src/nack.rs:46-81 | the state after an arrival, old, next or ahead |
| Nack.NackSender.RetainPass | media/src/nack.rs:90-115 | the retain closure, entry by entry, drops what expired and stamps what is due |
| Nack.NackSender.SendNacks | media/src/nack.rs:86-132 | the numbers asked for, in ascending order, None exactly when nothing is due; every entry left has a stamp to unwrap |
| Nack.RequestsAreDue | media/src/nack.rs:86-132 | the numbers asked for are the due ones exactly unless an earlier call had the same time |
| Nack.AtMostTenRequests | media/src/nack.rs:86-132 | over every run with increasing call times no number is asked for more than ten times |
| Nack.AsksForExactlyDue | media/src/nack.rs:86-132 | over every such run each call asks for exactly what is due |
| Nack.AsksByTheClock | media/src/nack.rs:86-132 | over every run with increasing call times a call asks only for numbers that are wanted, not given up by this call, and never asked for or last asked for 200 ms ago or more, and within the limit of the largest arrival for all of them: told by the event times alone |
| Nack.AskedTenTimes | media/src/nack.rs:86-132 | a number that never comes is asked for by the first ten of any number of calls 200 ms apart, and by no other |
| Nack.NeverAskedAfterArrival | media/src/nack.rs:46-132 | over every run, whatever the call times, a number that has arrived is never asked for again |
| Nack.TrackedExactly | media/src/nack.rs:46-132 | over every run only such numbers are tracked, and within the limit of the largest arrival all of them, told by the events alone: passed since the first arrival, not arrived, and with no call two seconds or more after the first that came when they had been passed |
| TwoGenerationCaches.TwoGenerationCache.SwapIfTooLong | media/src/two_generation_cache.rs:109-122 | the generations swap at the expiry time and the old one is handed out |
| TwoGenerationCaches.TwoGenerationCache.Insert | media/src/two_generation_cache.rs:32-35 | swap, then store in the younger generation |
| TwoGenerationCaches.TwoGenerationCache.Get | media/src/two_generation_cache.rs:125-132 | the younger generation answers first |
| TwoGenerationCaches.TwoGenerationCache.Remove | media/src/two_generation_cache.rs:135-143 | the key leaves both generations and the current value is returned |
| TwoGenerationCaches.TwoGenerationCache.RemoveOld | media/src/two_generation_cache.rs:95-107 | the keys returned are exactly those that can no longer be looked up |
| TwoGenerationCaches.NeverStale | media/src/two_generation_cache.rs:32-143 | over every run a lookup gives the latest value stored and not removed, or nothing |
| TwoGenerationCaches.Survives | media/src/two_generation_cache.rs:32-143 | an entry is found while no operation came more than a positive lifetime after it |
| TwoGenerationCaches.Expires | media/src/two_generation_cache.rs:32-143 | two operations a lifetime apart, the first a lifetime after an entry, remove it |
| TwoGenerationCaches.ZeroLifetimeLosesAtOnce | media/src/two_generation_cache.rs:109-122 | with lifetime zero an entry can be lost at the instant it was stored |
| Rtx.PacketToRtx | media/src/rtx.rs:171-193 | the RTX packet is the original with sequence number, SSRC and payload replaced as in section 4 of RFC 4588 |
| Rtx.BuildRtx | media/src/rtx.rs:171-193 | the byte-vector patching builds that packet |
| Rtx.UnwrapView | media/src/stream.rs:4922-4955 | a packet of the next payload type gets its sequence number from its payload, the stream's payload type, and the layer's SSRC if that is known; the rest is kept |
| Rtx.RoundTrip | media/src/stream.rs:4922-4955 | unwrapping a wrapped packet restores it byte for byte exactly when it has a payload, its payload type is below 127 and the layer's SSRC is known to be its own |
| Rtx.RtxSender.IncrementSeqnum | media/src/rtx.rs:86-100 | counters start at 1 and advance one RTX stream at a time |
| Rtx.RtxSender.RememberSent | media/src/rtx.rs:105-115 | the packet is stored under its SSRC and sequence number |
| Rtx.RtxSender.ResendAsRtx | media/src/rtx.rs:128-147 | a hit wraps the stored packet under the next number, a miss spends none |
| Rtx.RtxSsrcsDistinct | media/src/rtx.rs:152-154 | different streams have different RTX SSRCs, each the next number |
| Rtx.CounterCountsAnswers | media/src/rtx.rs:86-147 | over every run the i-th resend of a stream carries number i |
| Rtx.AnswersAreCurrent | media/src/rtx.rs:105-147 | over every run an answer wraps the packet most recently sent under the number asked for |
| Rtx.AnswerUnwraps | media/src/rtx.rs:105-147 | a request within the limit is answered with a packet that unwraps to the one stored |
| VideoSenders.StampedRoundTrip | media/src/stream.rs:4401-4407 | a wrapped packet stamped anew unwraps to the packet with the new stamp, under the same exact condition |
| VideoSenders.ResendRecovers | media/src/stream.rs:4468-4486 | a packet asked for within the limit comes back to the receiver as it first came, byte for byte, but for the two bytes of its stamp; it is the very packet first sent exactly when the stamps are equal |
| VideoRelays.RelayRecovers | media/src/stream.rs:4300-4486 | the whole path as one run of incoming packets and requests: what was sent reads as the incoming packet under the ids it was given, and a request within the limit brings it back byte for byte but for the stamp |
| JitterBuffer.SeqQueue.Push | media/src/buffer.rs:56-72 | the insertion scan puts an item in front of the first with a smaller number |
| JitterBuffer.SeqQueue.Pop | media/src/buffer.rs:74-76 | the item with the smallest number leaves from the back |
| JitterBuffer.PushKeepsOrder | media/src/buffer.rs:56-72 | a push keeps the queue in order |
| JitterBuffer.ExtendedOrder | media/src/buffer.rs:247-247 | later packets never get smaller numbers; two tie exactly across a wrap |
| JitterBuffer.QueuedBehindUnlessWrap | media/src/buffer.rs:56-76 | a packet right behind its predecessor leaves after it exactly when the numbers did not wrap between |
| JitterBuffer.RtpBufferState.UpdateRoc | media/src/buffer.rs:193-210 | the buffer's copy of the counter rule is the same rule |
| JitterBuffer.RtpBufferState.Add | media/src/buffer.rs:232-264 | one packet: what is queued, what is dropped, when the buffer counts as filled; validity is kept |
| JitterBuffer.RtpBufferState.Fill | media/src/buffer.rs:271-292 | the loop over chunks takes a prefix of the queue and puts a remainder back |
| JitterBuffer.RtpBufferState.Adapt | media/src/buffer.rs:304-331 | the target size after a read |
| JitterBuffer.RtpBufferState.Get | media/src/buffer.rs:266-334 | one read: payload, slice and new state; validity is kept |
| JitterBuffer.DrainTakesPrefix | media/src/buffer.rs:271-292 | re-slicing takes the first samples and leaves the others in order, however they were chunked |
| JitterBuffer.ReadsSlice | media/src/buffer.rs:266-334 | a read from a filled buffer gives exactly the slice length, silence only when the queue runs out |
| JitterBuffer.SamplesAreConserved | media/src/buffer.rs:232-334 | over every run the samples that came in are those that went out and those queued; the size stays in 2 to 10; a filled buffer is not empty |
| JitterPlayouts.PlaysExactly | media/src/buffer.rs:232-334 | over every run the buffer counts as filled exactly when since it last ran dry it has held as many chunks as the target size then in force; the target starts at 2, grows at every run dry up to 10, and shrinks at the 501st read in a row that leaves two chunks or more |
| JitterPlayouts.ReadsWhilePlaying | media/src/buffer.rs:266-304 | over every run the next read gives a full slice exactly in that case |
| JitterPlayouts.PacketsLetIn | media/src/buffer.rs:232-264 | over every run the next packet is queued exactly when something is decoded of it and it is not silence on a queue of more than 10 chunks or of more than the target size and one |
| JitterPlayouts.DrainCuts | media/src/buffer.rs:271-292 | a read takes whole chunks off the back and cuts at most one |
| JitterPlayouts.PayloadsAreConserved | media/src/buffer.rs:255-334 | over every run the payloads let in are those given out and those queued, in the order of their numbers |
| JitterPlayouts.PayloadIsSlice | media/src/buffer.rs:255-334 | without transcoding and with packets of one slice each, what a read gives as samples is what it gives as payload, decoded |
| JitterStreams.InOrderCaught | media/src/buffer.rs:193-264 | over every run with packets in order the counter is right and nothing queued is numbered past the last packet |
| JitterStreams.StreamGrows | media/src/buffer.rs:232-334 | a read keeps the stream; the next packet in order goes to its end, but for samples still queued under its own number, which it overtakes, and only across a wrap; it matters exactly when the two do not commute |
| JitterStreams.InOrderStreamIsExact | media/src/buffer.rs:232-334 | over every run in order that never meets its own number on the queue, wraps included, the output followed by the queue is the input, sample by sample |
| JitterStreams.ArrivalsAreQueued | media/src/buffer.rs:193-264 | packets out of order within 100 are queued under the numbers of their true indices |
| JitterStreams.ReorderingIsUndone | media/src/buffer.rs:56-72 | between reads the queue does not depend on the order of arrival |
| JitterStreams.ReorderedLeaveInOrder | media/src/buffer.rs:56-334 | samples of packets that arrived in any order leave, together with what was queued before, in the order of their numbers |
| JitterStreams.InOrderUnlessLate | media/src/buffer.rs:232-334 | over every run with reads, all samples leave in the order of their numbers exactly when no packet is let in after a sample with a larger number has left |
| JitterStreams.NumbersAreExtended | media/src/buffer.rs:193-264 | over every run whose packets are within 100 of each other those numbers are the extended numbers of the true indices |
| FixedDqueues.FixedDqueue.Push | media/src/buffer.rs:102-120 | a push into the circular queue appends, dropping the oldest element when full |
| FixedDqueues.FixedDqueue.Pop | media/src/buffer.rs:122-131 | a pop takes the oldest element |
| FixedDqueues.FixedDqueue.Distance | media/src/buffer.rs:141-152 | the distance is the number of elements |
| FixedDqueues.KeepsTheLast | media/src/buffer.rs:102-120 | after any run of pushes the queue holds the last ones, in order |
| Dtmf.DtmfDecoder.Process | codec/src/dtmf.rs:270-280 | a call returns exactly what its samples add to the events of the whole stream, however it is batched |
| Dtmf.DtmfDecoder.ProcessSample | codec/src/dtmf.rs:271-278 | blocks of 200 samples, across calls |
| Dtmf.BlocksExactly | codec/src/dtmf.rs:271-278 | block i is the i-th 200 samples and none is missing |
| Dtmf.DebouncedExactly | codec/src/dtmf.rs:321-364 | the debounced signal is that of the last block heard like the one before it |
| Dtmf.DtmfDecoder.NoTone | codec/src/dtmf.rs:321-339 | a silent block; the unwrap of the old tone always finds one |
| Dtmf.DtmfDecoder.SetTone | codec/src/dtmf.rs:341-364 | a block with a tone |
| Dtmf.LastEventTellsTone | codec/src/dtmf.rs:321-364 | over every signal the last event tells the tone last heard twice in a row |
| Dtmf.OnsAreRises | codec/src/dtmf.rs:321-364 | the On events are the changes of the debounced signal to a tone, in order |
| Dtmf.OffMatches | codec/src/dtmf.rs:321-364 | exactly when an Off event names the tone that was on |
| Dtmf.OffNeedNotMatch | codec/src/dtmf.rs:321-364 | a concrete signal whose Off names another tone |
| T38.DecodeLength | codec/src/fax.rs:509-524 | the moving pointer ends where the positional decoder says, refusal included |
| T38.DecodeOpenType | codec/src/fax.rs:502-507 | likewise for a length and its bytes |
| T38.LengthRoundTrip | codec/src/fax.rs:481-524 | a length is encoded exactly when below 0x4000, and then read back wherever it stands |
| T38.LengthBytes | codec/src/fax.rs:481-493 | one byte below 128, two under a set top bit above |
| T38.LengthReadsBack | codec/src/fax.rs:509-524 | what is read is the encoding of its value except for short lengths in two bytes |
| T38.OpenTypeRoundTrip | codec/src/fax.rs:495-507 | a message is read back between any other bytes |
| T38.PacketRoundTrip | codec/src/fax.rs:318-335 | a packet with any earlier messages is read back whole |
| T38.Fax.SendPacket | codec/src/fax.rs:302-344 | the ring buffer produces the packet of the message and the ones before it |
| T38.Fax.Redundancy | codec/src/fax.rs:331-335 | the loop over ring slots finds the previous messages, newest first |
| T38.CarriesLastFour | codec/src/fax.rs:302-344 | over every run packet n carries exactly messages n to n - 3 under their own numbers |
| T38.Receiver.ProcessUdptl | codec/src/fax.rs:256-282 | the message taken and the number expected next |
| T38.TakenUnlessWrapped | codec/src/fax.rs:268-280 | the later of two messages is taken exactly unless the numbers wrapped between them |

## Left out

- codecs and native libraries (ffmpeg, spandsp, opus, lame): what they encode or decode is a parameter.
- AES, HMAC and key derivation: the keystream and the MAC are arbitrary functions in `CryptoState`.
- Redis: the stored counters are a map that never fails and never expires.
- sockets, tasks, channels, RPC, signalling, storage and SDP.
- the `rtp` crate's parser and RTP padding: padding counts as payload.
- `Valid` is a precondition of the RTP operations: the accessors panic on packets shorter than their own header says.
- `RtpPackets.SetExtension`: extensions of 2^18 bytes or more, whose word count would not fit its field, are excluded.
- `csum`, the IPv4 writers and the buffer pools of packet.rs: no property beyond their bodies.
- the choice of key frames and bit rates in h264.rs.
- `H264.H264Decoder.Decode`: the one-byte fragment on which the program panics is the outcome `IndexPanic`.
- `Srtp.CryptoContext.DecryptRtp`: the index panic on a packet too short for its fixed header or its tag, or with a right tag over a cut-short header, is the outcome `Truncated`.
- `Srtp.CryptoContext.DecryptRtcp`: so is that on a packet too short for its index and tag, or marked as encrypted and too short for its header.
- `Nack.AsksByTheClock`: of numbers further behind the largest arrival than the limit it only says that none is asked for wrongly.
- `Rollover.Update`: counters are machine arithmetic of the given width, with the wrap written out.
- `TruncatedCounter.Expand`: the full counter is unbounded, where the program's is a u64.
- `Allocation.LoopAllocations`: one clock reading serves a whole call, rates are unbounded, and the factor 1.5 on heights is compared in integers.
- `Allocation.OrderIsUnique`: the sort itself is the standard library's; only its order is modelled.
- the packing of the numbers asked for into an RTCP message.
- `VideoSenders.VideoStreamSender.SendRtpPacket`: encryption after the stamp is `Srtp.CryptoContext.EncryptRtp`; sending and congestion control are left out; packets remembered all have room for the stamp, as those built from the template do.
- the 20 ms guard in front of `send_nacks`: it is never armed, so every call goes through.
- `LayerSwitch.VideoStreamReceiver.ForwardPacket`: the packets are not sent; the set of receivers is returned.
- `DataRates.DataRateTracker.Update`: the quotient is exact, where the program's goes through f64.
- `JitterBuffer.RtpBufferState.Add`: decoding, resampling and the noise gate are parameters.
- `Dtmf.DtmfDecoder.Process`: the Goertzel filters and thresholds are an arbitrary classifier of blocks.
- `T38.Fax.SendPacket`: the sequence counter is unbounded, where the program's is an i32; messages of 0x4000 bytes or more, on which it panics, are excluded.
- `T38.Receiver.ProcessUdptl`: a packet cut short, on which the program panics, is excluded; the expected number wraps as in a release build; the redundancy is never read by the program.
- googcc, date_rate and mixing: floating-point estimators.
