/** The sending path of a video stream as one (media/src/stream.rs): incoming packets of any number of
    sources are rewritten, built, remembered and stamped, and what is asked for again is resent. */
module VideoRelays {
  import opened Bytes
  import opened RtpPackets
  import opened TwoGenerationCaches
  import opened Rtx
  import opened VideoSenders
  import Vp8Forwarding
  import Vp8Header

  /** What is fixed for one receiver: the lifetime of remembered packets, the time it started, the
      payload type, and the SSRC every source goes out under. */
  datatype Config = Config(limit: nat, start: nat, pt: Byte, ssrcOf: Vp8Forwarding.Uuid -> U32)

  ghost predicate ValidConfig(c: Config) { c.pt < 0x7F && c.limit > 0 }

  datatype Input =
    | Incoming(src: Vp8Forwarding.Uuid, packet: Packet, now: nat)
    | Asked(ssrc: U32, seqnum: U16)

  /** The events of the forwarding of ids. */
  function ForwardingEvents(ins: seq<Input>): seq<Vp8Forwarding.Event> {
    if ins == [] then []
    else
      var i := ins[|ins| - 1];
      ForwardingEvents(ins[..|ins| - 1])
      + (if i.Incoming? then [Vp8Forwarding.Event(i.src, Vp8Forwarding.IncomingOf(i.packet))] else [])
  }

  /** The ids the next incoming packet goes out with, if it goes out. */
  function IdsFor(ins: seq<Input>, src: Vp8Forwarding.Uuid, packet: Packet): Option<Vp8Forwarding.Ids> {
    var s := Vp8Forwarding.Run(ForwardingEvents(ins)).sender;
    match Vp8Forwarding.Receive(s, src, Vp8Forwarding.IncomingOf(packet)).1
    case Forwarded(ids) => Some(ids)
    case _ => None
  }

  lemma ForwardedHasIds(ins: seq<Input>, src: Vp8Forwarding.Uuid, packet: Packet)
    requires IdsFor(ins, src, packet).Some?
    ensures Vp8Forwarding.HasIds(Vp8Forwarding.IncomingOf(packet)) && |Payload(packet)| >= 5
  {
    hide Vp8Forwarding.Switched, Vp8Forwarding.ExpandIds, Vp8Forwarding.Run, Parse, Payload, Vp8Header.Parse;
    Vp8Header.BothIdsPresent(Payload(packet));
  }

  /** The packet built for an incoming one; its template's random number and timestamp do not show. */
  function Built(c: Config, src: Vp8Forwarding.Uuid, packet: Packet, ids: Vp8Forwarding.Ids): (r: Stampable)
    requires |Payload(packet)| >= 5
    ensures Ssrc(r) == c.ssrcOf(src) && PayloadType(r) == c.pt % 0x80 && Payload(r) != []
  {
    OutgoingIsStampable(c.ssrcOf(src), c.pt, 0, 0, packet, ids, 0);
    Vp8Forwarding.Outgoing(Template(c.ssrcOf(src), c.pt, 0, 0), packet, ids)
  }

  /** What an input makes the sender do. */
  function SenderEvent(c: Config, before: seq<Input>, i: Input): Option<VideoSenders.Event> {
    match i
    case Asked(ssrc, seqnum) => Some(Nack(ssrc, seqnum))
    case Incoming(src, packet, now) =>
      match IdsFor(before, src, packet)
      case None => None
      case Some(ids) =>
        ForwardedHasIds(before, src, packet);
        Some(Forward(Built(c, src, packet, ids), now))
  }

  function SenderEvents(c: Config, ins: seq<Input>): seq<VideoSenders.Event> {
    if ins == [] then []
    else
      var e := SenderEvent(c, ins[..|ins| - 1], ins[|ins| - 1]);
      SenderEvents(c, ins[..|ins| - 1]) + (if e.Some? then [e.value] else [])
  }

  /** What input `k` puts on the wire. */
  function WireFor(c: Config, ins: seq<Input>, k: nat): Option<Packet>
    requires c.pt < 0x7F && k < |ins|
  {
    match SenderEvent(c, ins[..k], ins[k])
    case None => None
    case Some(e) => Handled(VideoSenders.Run(c.limit, c.start, c.pt, SenderEvents(c, ins[..k])), c.pt, e).1
  }

  lemma {:induction false} EventsOfPrefix(c: Config, ins: seq<Input>, k: nat)
    requires k <= |ins|
    ensures SenderEvents(c, ins[..k]) <= SenderEvents(c, ins)
    decreases |ins|
  {
    hide SenderEvent;
    if k == |ins| {
      assert ins[..k] == ins;
    } else {
      assert ins[..|ins| - 1][..k] == ins[..k];
      EventsOfPrefix(c, ins[..|ins| - 1], k);
    }
  }

  /** Input `k` is the last incoming packet to go out under this SSRC and sequence number. */
  ghost predicate LastOut(c: Config, ins: seq<Input>, key: Key, k: nat) {
    && k < |ins| && OutAs(c, ins, k) == Some(key)
    && forall j :: k < j < |ins| ==> OutAs(c, ins, j) != Some(key)
  }

  /** The SSRC and sequence number an incoming packet goes out under. */
  function OutAs(c: Config, ins: seq<Input>, k: nat): Option<Key>
    requires k < |ins|
  {
    match SenderEvent(c, ins[..k], ins[k])
    case Some(Forward(packet, _)) => Some(KeyOf(packet))
    case _ => None
  }

  /** The place of input `k` among the sender's events, and that it is the last of its key there too. */
  lemma {:induction false} LastAmongEvents(c: Config, ins: seq<Input>, key: Key, k: nat)
    requires LastOut(c, ins, key, k)
    ensures var (es, at) := (SenderEvents(c, ins), |SenderEvents(c, ins[..k])|);
            && at < |es| && es[..at] == SenderEvents(c, ins[..k])
            && Some(es[at]) == SenderEvent(c, ins[..k], ins[k])
            && LastSent(es, key, at)
    decreases |ins|
  {
    hide SenderEvent, KeyOf;
    var (before, n) := (ins[..|ins| - 1], |ins| - 1);
    var (es, at) := (SenderEvents(c, ins), |SenderEvents(c, ins[..k])|);
    if k == n {
      assert es[..at] == SenderEvents(c, before);
    } else {
      assert before[..k] == ins[..k] && before[k] == ins[k];
      forall j | k <= j < n
        ensures OutAs(c, before, j) == OutAs(c, ins, j)
      {
        assert before[..j] == ins[..j] && before[j] == ins[j];
      }
      LastAmongEvents(c, before, key, k);
      assert OutAs(c, ins, n) != Some(key);
      assert es[..at] == SenderEvents(c, before)[..at];
    }
  }

  /** The clock of the packets remembered. */
  function ClockOf(c: Config, ins: seq<Input>): nat {
    Clock(c.start, Stores(RtxEvents(SenderEvents(c, ins))))
  }

  /** Incoming packets are handled in the order of their times. */
  ghost predicate InTime(c: Config, ins: seq<Input>) {
    Monotonic(c.start, Stores(RtxEvents(SenderEvents(c, ins))))
  }

  /** What is known of an incoming packet that went out under a key. */
  lemma OutIs(c: Config, ins: seq<Input>, k: nat, key: Key)
    requires k < |ins| && ins[k].Incoming? && OutAs(c, ins, k) == Some(key)
    ensures var (src, packet) := (ins[k].src, ins[k].packet);
            var ids := IdsFor(ins[..k], src, packet);
            && ids.Some? && |Payload(packet)| >= 5 && Vp8Forwarding.HasIds(Vp8Forwarding.IncomingOf(packet))
            && SenderEvent(c, ins[..k], ins[k]) == Some(Forward(Built(c, src, packet, ids.value), ins[k].now))
            && key == (c.ssrcOf(src), ids.value.seqnum % 0x1_0000)
  {
    hide IdsFor, Built, Vp8Forwarding.HasIds, Vp8Forwarding.IncomingOf, Payload, Parse, Valid;
    var (src, packet) := (ins[k].src, ins[k].packet);
    var ids := IdsFor(ins[..k], src, packet);
    assert ids.Some?;
    ForwardedHasIds(ins[..k], src, packet);
    BuiltReads(c, src, packet, ids.value, 0);
  }

  lemma WiresAre(c: Config, ins: seq<Input>, ssrc: U32, seqnum: U16, k: nat, at: nat)
    requires c.pt < 0x7F && k < |ins|
    requires var es := SenderEvents(c, ins);
             at < |es| && es[..at] == SenderEvents(c, ins[..k]) && Some(es[at]) == SenderEvent(c, ins[..k], ins[k])
    ensures var es := SenderEvents(c, ins);
            && WireFor(c, ins, k) == Wire(c.limit, c.start, c.pt, es, at)
            && WireFor(c, ins + [Asked(ssrc, seqnum)], |ins|)
               == Wire(c.limit, c.start, c.pt, es + [Nack(ssrc, seqnum)], |es|)
  {
    hide VideoSenders.Run, Handled, SenderEvents, IdsFor, Built;
    var es := SenderEvents(c, ins);
    assert (ins + [Asked(ssrc, seqnum)])[..|ins|] == ins;
    assert (es + [Nack(ssrc, seqnum)])[..|es|] == es;
  }

  /** The stamp of the next packet. */
  function NextStampOf(c: Config, ins: seq<Input>): U16
    requires c.pt < 0x7F
  {
    NextStamp(VideoSenders.Run(c.limit, c.start, c.pt, SenderEvents(c, ins)))
  }

  /** From incoming packet to recovered resend. A packet that came in and was sent, and is asked for
      no more than the limit later, comes back to the receiver as it first came, byte for byte, but
      for the stamp, which is that of the resend; and what first came reads as the incoming packet
      with rewritten ids: under the SSRC of its source, with the low bits of the ids it was given,
      the incoming marker, and the incoming payload with the new picture id and TL0PICIDX in its VP8
      header. */
  lemma RelayRecovers(c: Config, ins: seq<Input>, ssrc: U32, seqnum: U16, k: nat)
    requires ValidConfig(c) && InTime(c, ins) && LastOut(c, ins, (ssrc, seqnum), k)
    requires ins[k].Incoming? && ClockOf(c, ins) <= ins[k].now + c.limit
    ensures var (src, packet) := (ins[k].src, ins[k].packet);
            var ids := IdsFor(ins[..k], src, packet);
            var (first, again) := (WireFor(c, ins, k), WireFor(c, ins + [Asked(ssrc, seqnum)], |ins|));
            && ids.Some? && first.Some? && HasRoom(first.value) && again.Some?
            && ssrc == c.ssrcOf(src) && seqnum == ids.value.seqnum % 0x1_0000
            && Unwrap(again.value, c.pt, Some(ssrc)) == Media(Stamped(first.value, NextStampOf(c, ins)))
            && Vp8Forwarding.HasIds(Vp8Forwarding.IncomingOf(packet)) && ReadsAs(first.value, packet, ids.value)
  {
    hide IdsFor, Built, VideoSenders.Run, Handled, SenderEvents, RtxEvents, Stores, LastSent, Unwrap, ReadsAs, Stamped,
         HasRoom, SenderEvent, Monotonic, Clock, Wire, WireFor, Payload, Vp8Forwarding.HasIds, Vp8Forwarding.IncomingOf,
         OutAs, StampOf;
    var (es, at) := (SenderEvents(c, ins), |SenderEvents(c, ins[..k])|);
    var (src, packet) := (ins[k].src, ins[k].packet);
    LastAmongEvents(c, ins, (ssrc, seqnum), k);
    OutIs(c, ins, k, (ssrc, seqnum));
    var ids := IdsFor(ins[..k], src, packet).value;
    ResendRecovers(c.limit, c.start, c.pt, es, ssrc, seqnum, at);
    WiresAre(c, ins, ssrc, seqnum, k, at);
    BuiltReads(c, src, packet, ids, NextStamp(VideoSenders.Run(c.limit, c.start, c.pt, es[..at])));
    FirstIsStamped(c, es, at);
  }

  lemma FirstIsStamped(c: Config, es: seq<VideoSenders.Event>, at: nat)
    requires c.pt < 0x7F && at < |es| && es[at].Forward?
    ensures Wire(c.limit, c.start, c.pt, es, at)
         == Some(Stamped(es[at].packet, NextStamp(VideoSenders.Run(c.limit, c.start, c.pt, es[..at]))))
  {
    hide VideoSenders.Run, Stamped;
  }

  /** A packet reads as this incoming one with these ids. */
  ghost predicate ReadsAs(wire: Packet, packet: Packet, ids: Vp8Forwarding.Ids)
    requires Vp8Forwarding.HasIds(Vp8Forwarding.IncomingOf(packet))
  {
    && Sequence(wire) == ids.seqnum % 0x1_0000
    && Timestamp(wire) == ids.timestamp % 0x1_0000_0000
    && Marker(wire) == Marker(packet)
    && |Payload(wire)| >= 5 && |Payload(packet)| >= 5 && Payload(wire)[5..] == Payload(packet)[5..]
    && Vp8Header.Parse(Payload(wire))
       == Vp8Header.Ok(Vp8Header.Parse(Payload(packet)).header.(
            pictureId := Some(ids.pictureId % 0x8000), tl0PicIdx := Some(ids.tl0PicIdx % 0x100)))
  }

  lemma BuiltReads(c: Config, src: Vp8Forwarding.Uuid, packet: Packet, ids: Vp8Forwarding.Ids, stamp: U16)
    requires Vp8Forwarding.HasIds(Vp8Forwarding.IncomingOf(packet)) && |Payload(packet)| >= 5
    ensures ReadsAs(Stamped(Built(c, src, packet, ids), stamp), packet, ids)
    ensures Sequence(Built(c, src, packet, ids)) == ids.seqnum % 0x1_0000
  {
    hide Parse, Valid, Vp8Header.Parse, Stamped, Template, Vp8Forwarding.Outgoing, Vp8Forwarding.IncomingOf;
    Vp8Forwarding.OutgoingReads(Template(c.ssrcOf(src), c.pt, 0, 0), packet, ids);
    Vp8Forwarding.OutgoingView(Template(c.ssrcOf(src), c.pt, 0, 0), packet, ids);
  }
}
